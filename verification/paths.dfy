/** POSIX `os.path.dirname` / `os.path.basename` and the `.geojson` output
    path both GeoJSON converters derive from an input file name. */
module Paths {
  import Strings

  /** `os.path.sep` on POSIX. */
  const Sep: char := '/'

  /** `s.rfind(c)`: the index of the last `c`, or -1. */
  function RFind(s: string, c: char): (i: int)
    ensures -1 <= i < |s|
    ensures i >= 0 ==> s[i] == c
    ensures forall j :: i < j < |s| ==> s[j] != c
  {
    if s == [] then -1
    else if s[|s| - 1] == c then |s| - 1
    else RFind(s[..|s| - 1], c)
  }

  lemma {:induction false} RFindAfterLast(d: string, c: char, x: string)
    requires c !in x
    ensures RFind(d + [c] + x, c) == |d|
    decreases |x|
  {
    var s := d + [c] + x;
    if x != [] {
      assert s[|s| - 1] == x[|x| - 1];
      assert s[..|s| - 1] == d + [c] + x[..|x| - 1];
      RFindAfterLast(d, c, x[..|x| - 1]);
    }
  }

  predicate AllSep(s: string) {
    forall k :: 0 <= k < |s| ==> s[k] == Sep
  }

  /** `s.rstrip(os.sep)`. */
  function RStripSep(s: string): (r: string)
    ensures |r| <= |s| && r == s[..|r|]
    ensures forall k :: |r| <= k < |s| ==> s[k] == Sep
    ensures r == [] || r[|r| - 1] != Sep
  {
    if s == [] || s[|s| - 1] != Sep then s
    else RStripSep(s[..|s| - 1])
  }

  /** `os.path.basename(p)`: what follows the last separator. */
  function Basename(p: string): (b: string)
    ensures Sep !in b
    ensures |b| <= |p| && b == p[|p| - |b|..]
    ensures |b| < |p| ==> p[|p| - |b| - 1] == Sep
  {
    p[RFind(p, Sep) + 1..]
  }

  /** `p[:p.rfind(os.sep) + 1]`: the directory part with its trailing separator. */
  function Head(p: string): (head: string)
    ensures |head| + |Basename(p)| == |p| && head == p[..|head|]
    ensures head == [] <==> Sep !in p
    ensures head == [] || head[|head| - 1] == Sep
  {
    p[..RFind(p, Sep) + 1]
  }

  /** `os.path.dirname(p)`: everything up to the last separator, with the
      trailing separators dropped unless nothing else is left. */
  function Dirname(p: string): (d: string)
    ensures d == [] <==> Sep !in p
    ensures |d| + |Basename(p)| <= |p| && d == p[..|d|]
    ensures forall k :: |d| <= k < |p| - |Basename(p)| ==> p[k] == Sep
    ensures d == [] || d[|d| - 1] != Sep || AllSep(d)
    ensures AllSep(Head(p)) ==> d == Head(p)
  {
    var head := Head(p);
    if head != [] && !AllSep(head) then RStripSep(head) else head
  }

  /** `basename.split('.')[0]`: the file name up to its first dot. */
  function Stem(base: string): (stem: string)
    ensures '.' !in stem
    ensures |stem| <= |base| && stem == base[..|stem|]
    ensures |stem| < |base| ==> base[|stem|] == '.'
  {
    Strings.Split(base, '.')[0]
  }

  /** `os.path.sep.join([dirname, stem + '.geojson'])`. */
  function OutputPath(name: string): (path: string)
    ensures Basename(path) == Stem(Basename(name)) + ".geojson"
    ensures path == Dirname(name) + [Sep] + Basename(path)
  {
    var file := OutputName(name);
    BasenameAfterSep(Dirname(name), file);
    Dirname(name) + [Sep] + file
  }

  /** `stem + '.geojson'`: the output file name, which has no separator. */
  function OutputName(name: string): (file: string)
    ensures Sep !in file
    ensures file == Stem(Basename(name)) + ".geojson"
  {
    var stem := Stem(Basename(name));
    assert Sep !in stem by {
      assert forall k :: 0 <= k < |stem| ==> stem[k] == Basename(name)[k];
    }
    assert forall k :: |stem| <= k < |stem| + 8 ==> (stem + ".geojson")[k] == ".geojson"[k - |stem|];
    stem + ".geojson"
  }

  /** The as-written output path spelled out: dirname, separator, stem,
      ".geojson". */
  lemma OutputPathParts(name: string)
    ensures OutputPath(name) == Dirname(name) + [Sep] + Stem(Basename(name)) + ".geojson"
  {
    assert OutputPath(name) == Dirname(name) + [Sep] + (Stem(Basename(name)) + ".geojson");
  }

  /** What follows the last separator is the base name. */
  lemma BasenameAfterSep(d: string, x: string)
    requires Sep !in x
    ensures Basename(d + [Sep] + x) == x
  {
    RFindAfterLast(d, Sep, x);
    assert (d + [Sep] + x)[|d| + 1..] == x;
  }

  /** A name without a directory part still gets a separator in front: the
      join puts it after an empty first component. */
  lemma OutputPathWithoutDirectory(name: string)
    requires Sep !in name
    ensures OutputPath(name) == [Sep] + Stem(name) + ".geojson"
  {
    assert RFind(name, Sep) == -1;
  }

  /** A name `dir/base` whose directory does not end in a separator keeps that
      directory and replaces everything from the first dot of `base` on. */
  lemma OutputPathInDirectory(dir: string, base: string)
    requires dir != [] && dir[|dir| - 1] != Sep
    requires Sep !in base
    ensures OutputPath(dir + [Sep] + base) == dir + [Sep] + Stem(base) + ".geojson"
  {
    DirAndBase(dir, base);
    OutputPathParts(dir + [Sep] + base);
  }

  lemma StemBeforeDot(stem: string, ext: string)
    requires '.' !in stem && '.' !in ext
    ensures Stem(stem + "." + ext) == stem
  {
    assert stem + "." + ext == Strings.Join([stem, ext], '.');
    Strings.SplitJoin([stem, ext], '.');
  }

  lemma StemOfOutputName(stem: string)
    requires '.' !in stem
    ensures Stem(stem + ".geojson") == stem
  {
    StemBeforeDot(stem, "geojson");
    assert stem + "." + "geojson" == stem + ".geojson";
  }

  /** Deriving the output path of an output path changes nothing, as long as
      the input's directory has a character other than the separator. */
  lemma OutputPathIdempotent(name: string)
    requires !AllSep(Dirname(name))
    ensures OutputPath(OutputPath(name)) == OutputPath(name)
  {
    var d := Dirname(name);
    var stem := Stem(Basename(name));
    var file := OutputName(name);
    var out := OutputPath(name);
    assert out == d + [Sep] + file;
    assert d != [] && d[|d| - 1] != Sep;
    OutputPathInDirectory(d, file);
    StemOfOutputName(stem);
    assert OutputPath(out) == d + [Sep] + stem + ".geojson";
    assert d + [Sep] + stem + ".geojson" == d + [Sep] + (stem + ".geojson");
  }

  lemma StemOfGpxName(stem: string)
    requires '.' !in stem
    ensures Stem(stem + ".gpx") == stem
  {
    StemBeforeDot(stem, "gpx");
    assert stem + "." + "gpx" == stem + ".gpx";
  }

  lemma GpxNameAtTopLevel(stem: string)
    requires '.' !in stem && Sep !in stem
    ensures OutputPath(stem + ".gpx") == [Sep] + stem + ".geojson"
  {
    assert Sep !in stem + ".gpx";
    OutputPathWithoutDirectory(stem + ".gpx");
    StemOfGpxName(stem);
  }

  lemma NameAtRoot(base: string)
    requires Sep !in base
    ensures Dirname([Sep] + base) == [Sep] && Basename([Sep] + base) == base
  {
    RFindAfterLast([], Sep, base);
    assert [Sep] + base == [] + [Sep] + base;
    assert Head([Sep] + base) == [Sep];
  }

  lemma OutputPathAtRoot(base: string)
    requires Sep !in base
    ensures OutputPath([Sep] + base) == [Sep, Sep] + Stem(base) + ".geojson"
  {
    NameAtRoot(base);
  }

  lemma OutputNameAtRoot(stem: string)
    requires '.' !in stem && Sep !in stem
    ensures OutputPath([Sep] + stem + ".geojson") == [Sep, Sep] + stem + ".geojson"
  {
    var base := stem + ".geojson";
    assert [Sep] + stem + ".geojson" == [Sep] + base;
    OutputPathAtRoot(base);
    StemOfOutputName(stem);
  }

  /** For a name without a directory the derivation is not idempotent: the
      separator it puts in front becomes a directory of its own next time. */
  lemma OutputPathAtTopLevelGrows(stem: string)
    requires '.' !in stem && Sep !in stem
    ensures OutputPath(stem + ".gpx") == [Sep] + stem + ".geojson"
    ensures OutputPath(OutputPath(stem + ".gpx")) == [Sep, Sep] + stem + ".geojson"
  {
    GpxNameAtTopLevel(stem);
    OutputNameAtRoot(stem);
  }

  /** Where the as-written derivation puts the output of a bare file name: in
      the root directory, not next to the input. */
  lemma OutputPathLeavesDirectory(stem: string)
    requires '.' !in stem && Sep !in stem
    ensures Dirname(stem + ".gpx") == []
    ensures Dirname(OutputPath(stem + ".gpx")) == [Sep]
  {
    var name := stem + ".gpx";
    var base := stem + ".geojson";
    assert Sep !in name;
    assert Sep !in base;
    GpxNameAtTopLevel(stem);
    assert OutputPath(name) == [Sep] + base;
    NameAtRoot(base);
  }

  /** `os.path.join(dir, file)` for a file name without a separator: no
      separator after an empty or separator-ended directory. */
  function JoinPath(dir: string, file: string): (path: string)
    ensures |dir| + |file| <= |path| <= |dir| + |file| + 1
    ensures path[..|dir|] == dir && path[|path| - |file|..] == file
    ensures |path| == |dir| + |file| + 1 <==> dir != [] && dir[|dir| - 1] != Sep
    ensures |path| == |dir| + |file| + 1 ==> path[|dir|] == Sep
  {
    if dir == [] then file
    else if dir[|dir| - 1] == Sep then dir + file
    else dir + [Sep] + file
  }

  lemma DirAndBase(dir: string, base: string)
    requires dir != [] && dir[|dir| - 1] != Sep
    requires Sep !in base
    ensures Dirname(dir + [Sep] + base) == dir && Basename(dir + [Sep] + base) == base
  {
    var name := dir + [Sep] + base;
    RFindAfterLast(dir, Sep, base);
    var head := name[..|dir| + 1];
    assert head == dir + [Sep];
    assert head[|dir| - 1] != Sep;
    assert head[..|head| - 1] == dir;
  }

  /** Joining a directory as `Dirname` returns it with a plain file name gives
      a path with that directory and that file name back. */
  lemma JoinLocates(dir: string, file: string)
    requires Sep !in file
    requires dir == [] || dir[|dir| - 1] != Sep || AllSep(dir)
    ensures Dirname(JoinPath(dir, file)) == dir
    ensures Basename(JoinPath(dir, file)) == file
  {
    if dir == [] {
      assert RFind(file, Sep) == -1;
    } else if dir[|dir| - 1] == Sep {
      var front := dir[..|dir| - 1];
      assert dir + file == front + [Sep] + file;
      RFindAfterLast(front, Sep, file);
      assert Head(dir + file) == dir;
    } else {
      DirAndBase(dir, file);
    }
  }

  /** The output path the converters evidently mean: `<stem>.geojson` in the
      directory of the input, as `os.path.join` would build it. */
  function SiblingPath(name: string): (path: string)
    ensures Dirname(path) == Dirname(name)
    ensures Basename(path) == Stem(Basename(name)) + ".geojson"
  {
    var file := OutputName(name);
    JoinLocates(Dirname(name), file);
    JoinPath(Dirname(name), file)
  }

  /** Wherever the input's directory is more than separators, the corrected
      path and the as-written one are the same. */
  lemma SiblingPathMatchesOutputPath(name: string)
    requires !AllSep(Dirname(name))
    ensures SiblingPath(name) == OutputPath(name)
  {
    var d := Dirname(name);
    var file := OutputName(name);
    assert d != [] && d[|d| - 1] != Sep;
    assert SiblingPath(name) == JoinPath(d, file) == d + [Sep] + file;
    assert OutputPath(name) == d + [Sep] + file;
  }

  /** A bare file name gets a bare output name. */
  lemma SiblingPathAtTopLevel(stem: string)
    requires '.' !in stem && Sep !in stem
    ensures SiblingPath(stem + ".gpx") == stem + ".geojson"
  {
    assert Sep !in stem + ".gpx";
    assert RFind(stem + ".gpx", Sep) == -1;
    StemOfGpxName(stem);
  }

  /** Deriving the output path of an output path changes nothing, for every
      name. */
  lemma SiblingPathIdempotent(name: string)
    ensures SiblingPath(SiblingPath(name)) == SiblingPath(name)
  {
    var stem := Stem(Basename(name));
    StemOfOutputName(stem);
  }
}
