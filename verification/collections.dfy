/** Generic folds the scripts perform with Python dicts and lists. */
module Collections {
  import opened Results

  /** The item at `i` is present and has key `k`. */
  predicate HasKey<K(==), V>(items: seq<Option<(K, V)>>, i: int, k: K) {
    0 <= i < |items| && items[i].Some? && items[i].value.0 == k
  }

  /** The position of the last present item with key `k`, or -1. */
  function LastIndexOf<K(==), V>(items: seq<Option<(K, V)>>, k: K): (i: int)
    ensures -1 <= i < |items|
    ensures i >= 0 ==> HasKey(items, i, k)
    ensures forall j :: i < j < |items| ==> !HasKey(items, j, k)
    ensures i == -1 ==> forall j :: 0 <= j < |items| ==> !HasKey(items, j, k)
  {
    if items == [] then -1
    else if HasKey(items, |items| - 1, k) then |items| - 1
    else
      var front := items[..|items| - 1];
      var i := LastIndexOf(front, k);
      assert forall j :: 0 <= j < |front| ==> HasKey(front, j, k) == HasKey(items, j, k);
      i
  }

  /** Builds a dict by running `d[k] = v` for every present item, in order:
      each key ends up holding the value of its last occurrence. */
  function LastWins<K(==,!new), V>(items: seq<Option<(K, V)>>): (m: map<K, V>)
    ensures forall k :: k in m <==> exists i :: 0 <= i < |items| && items[i].Some? && items[i].value.0 == k
    ensures forall i :: 0 <= i < |items| && items[i].Some? &&
                        (forall j :: i < j < |items| && items[j].Some? ==> items[j].value.0 != items[i].value.0)
                        ==> items[i].value.0 in m && m[items[i].value.0] == items[i].value.1
  {
    var keys := set i | 0 <= i < |items| && items[i].Some? :: items[i].value.0;
    KeysHaveLast(items, keys);
    var m := map k | k in keys :: items[LastIndexOf(items, k)].value.1;
    assert forall i :: 0 <= i < |items| && items[i].Some? ==> HasKey(items, i, items[i].value.0);
    m
  }

  lemma KeysHaveLast<K, V>(items: seq<Option<(K, V)>>, keys: set<K>)
    requires keys == set i | 0 <= i < |items| && items[i].Some? :: items[i].value.0
    ensures forall k :: k in keys ==> LastIndexOf(items, k) >= 0
  {
    forall k | k in keys ensures LastIndexOf(items, k) >= 0 {
      var i :| 0 <= i < |items| && items[i].Some? && items[i].value.0 == k;
      assert HasKey(items, i, k);
    }
  }

  /** The outcome of a step is a present (key, value) pair for key `k`. */
  predicate Writes<K(==), V>(o: Result<Option<(K, V)>>, k: K) {
    o.Ok? && o.value.Some? && o.value.value.0 == k
  }

  /** `xs[i]` is the last element whose step writes key `k`. */
  ghost predicate LastWriter<E, K, V>(xs: seq<E>, step: E -> Result<Option<(K, V)>>, i: int, k: K) {
    && 0 <= i < |xs|
    && Writes(step(xs[i]), k)
    && forall j :: i < j < |xs| ==> !Writes(step(xs[j]), k)
  }

  /** Runs `step` on every element in order, the first raise aborting the
      run, and stores each (key, value) pair it yields in a dict, a later
      write to a key replacing an earlier one. */
  function KeyedRun<E, K(==,!new), V>(xs: seq<E>, step: E -> Result<Option<(K, V)>>): (r: Result<map<K, V>>)
    ensures r.Ok? <==> forall i :: 0 <= i < |xs| ==> step(xs[i]).Ok?
    ensures r.Err? ==> exists i :: 0 <= i < |xs| && step(xs[i]) == Err(r.error)
                                 && forall j :: 0 <= j < i ==> step(xs[j]).Ok?
    ensures r.Ok? ==> forall k :: k in r.value <==> exists i :: 0 <= i < |xs| && Writes(step(xs[i]), k)
    ensures r.Ok? ==> forall i, k :: LastWriter(xs, step, i, k) ==> k in r.value && r.value[k] == step(xs[i]).value.value.1
  {
    match AllOk(Steps(xs, step))
    case Err(e) => Err(e)
    case Ok(items) => Ok(LastWins(items))
  }

  /** The outcome of every step, in order. */
  function Steps<E, T>(xs: seq<E>, step: E -> T): (rs: seq<T>)
    ensures |rs| == |xs| && forall i :: 0 <= i < |xs| ==> rs[i] == step(xs[i])
  {
    seq(|xs|, i requires 0 <= i < |xs| => step(xs[i]))
  }

  /** A suffix is its first element followed by the rest. */
  lemma HeadAndTail<T>(s: seq<T>, i: nat)
    requires i < |s|
    ensures s[i..] == [s[i]] + s[i + 1..]
  {
  }

  /** One more element, one more step at the end. */
  lemma StepsSnoc<E, T>(xs: seq<E>, i: nat, step: E -> T)
    requires i < |xs|
    ensures Steps(xs[..i + 1], step) == Steps(xs[..i], step) + [step(xs[i])]
  {
  }

  /** Two steps writing the same key: the second one's value stays. */
  lemma KeyedRunLaterWins<E, K(!new), V>(x: E, y: E, step: E -> Result<Option<(K, V)>>, k: K)
    requires Writes(step(x), k) && Writes(step(y), k)
    ensures KeyedRun([x, y], step) == Ok(map[k := step(y).value.value.1])
  {
    var xs := [x, y];
    assert KeyedRun(xs, step).Ok?;
    var m := KeyedRun(xs, step).value;
    forall u | u in m ensures u == k {
      var i :| 0 <= i < 2 && Writes(step(xs[i]), u);
    }
    assert LastWriter(xs, step, 1, k);
    var expected := map[k := step(y).value.value.1];
    assert m.Keys == expected.Keys;
    assert forall u :: u in m ==> m[u] == expected[u];
    assert m == expected;
  }

  /** The position of the last present value, or -1 when there is none. */
  function LastSomeIndex<T>(xs: seq<Option<T>>): (i: int)
    ensures -1 <= i < |xs|
    ensures i >= 0 ==> xs[i].Some?
    ensures forall j :: i < j < |xs| ==> xs[j].None?
  {
    if xs == [] then -1
    else if xs[|xs| - 1].Some? then |xs| - 1
    else LastSomeIndex(xs[..|xs| - 1])
  }

  /** The last present value of a sequence of optional values. */
  function LastSome<T>(xs: seq<Option<T>>): (r: Option<T>)
    ensures r.None? <==> forall i :: 0 <= i < |xs| ==> xs[i].None?
    ensures r.Some? ==> exists i :: 0 <= i < |xs| && xs[i] == r && forall j :: i < j < |xs| ==> xs[j].None?
  {
    var i := LastSomeIndex(xs);
    if i < 0 then None else xs[i]
  }

  /** The present values of a sequence of optional values, in order. */
  function Somes<T>(xs: seq<Option<T>>): (r: seq<T>)
    ensures |r| <= |xs|
    ensures (forall i :: 0 <= i < |xs| ==> xs[i].Some?) ==> |r| == |xs| && forall i :: 0 <= i < |xs| ==> xs[i] == Some(r[i])
    decreases |xs|
  {
    if xs == [] then []
    else
      var front := xs[..|xs| - 1];
      assert forall i :: 0 <= i < |front| ==> front[i] == xs[i];
      match xs[|xs| - 1]
      case None => Somes(front)
      case Some(v) => Somes(front) + [v]
  }

  lemma SomesSnoc<T>(xs: seq<Option<T>>, x: Option<T>)
    ensures Somes(xs + [x]) == Somes(xs) + (if x.Some? then [x.value] else [])
  {
    assert (xs + [x])[..|xs|] == xs;
  }

  /** Every present value comes from some position of the input. */
  lemma {:induction false} SomesFrom<T>(xs: seq<Option<T>>, j: nat)
    requires j < |Somes(xs)|
    ensures exists i :: 0 <= i < |xs| && xs[i] == Some(Somes(xs)[j])
    decreases |xs|
  {
    var front := xs[..|xs| - 1];
    assert xs == front + [xs[|xs| - 1]];
    SomesSnoc(front, xs[|xs| - 1]);
    if j < |Somes(front)| {
      SomesFrom(front, j);
      var i :| 0 <= i < |front| && front[i] == Some(Somes(front)[j]);
      assert xs[i] == front[i];
    } else {
      assert xs[|xs| - 1] == Some(Somes(xs)[j]);
    }
  }

  ghost predicate Increasing(s: seq<int>) {
    forall i :: 0 < i < |s| ==> s[i - 1] < s[i]
  }

  lemma MinExists(s: set<int>)
    requires s != {}
    ensures exists m :: m in s && forall x :: x in s ==> m <= x
  {
    var y := PickOne(s);
    if s == {y} {
      assert forall x :: x in s ==> y <= x;
    } else {
      MinExists(s - {y});
      var m :| m in s - {y} && forall x :: x in s - {y} ==> m <= x;
      var least := if y < m then y else m;
      forall x | x in s ensures least <= x {
        if x != y { assert x in s - {y}; }
      }
    }
  }

  lemma PickOne(s: set<int>) returns (y: int)
    requires s != {}
    ensures y in s
  {
    if forall e :: e !in s {
      NoMemberMeansEmpty(s);
      assert false;
    }
    y :| y in s;
  }

  lemma NoMemberMeansEmpty<T>(s: set<T>)
    requires forall e :: e !in s
    ensures s == {}
  {
    assert forall e :: e in s <==> e in {};
  }

  /** The least element of a non-empty finite set of integers. */
  function Min(s: set<int>): (m: int)
    requires s != {}
    ensures m in s && forall x :: x in s ==> m <= x
  {
    MinExists(s);
    var m :| m in s && forall x :: x in s ==> m <= x;
    m
  }

  /** Python's `sorted` of a dict's integer keys: the keys, each once, ascending. */
  function SortedKeys(s: set<int>): (r: seq<int>)
    ensures |r| == |s|
    ensures forall k :: k in r <==> k in s
    ensures Increasing(r)
    decreases |s|
  {
    if s == {} then []
    else
      var m := Min(s);
      var rest := SortedKeys(s - {m});
      PrependLeast(m, rest, s);
      [m] + rest
  }

  /** Putting the least element in front of the sorted others keeps the
      sequence increasing and gives all the elements. */
  lemma PrependLeast(m: int, rest: seq<int>, s: set<int>)
    requires m in s && forall x :: x in s ==> m <= x
    requires forall k :: k in rest <==> k in s - {m}
    requires Increasing(rest)
    ensures forall k :: k in [m] + rest <==> k in s
    ensures Increasing([m] + rest)
  {
    var r := [m] + rest;
    forall i | 0 < i < |r| ensures r[i - 1] < r[i] {
      assert r[i] == rest[i - 1];
      if i == 1 {
        assert rest[0] in s - {m};
      } else {
        assert r[i - 1] == rest[i - 2];
      }
    }
  }
}
