/** The EXIF side shared by images_to_gpx.py and images_to_geojson.py: tag
    values as exifread hands them over, the degrees/minutes/seconds
    conversion, the hemisphere sign, the altitude, and the dictionary of GPS
    fields built from one file's tags. */
module Exif {
  import opened Results
  import opened Strings
  import opened Collections

  /** An exifread ratio `num / den`; the denominator may be 0. */
  datatype Rational = Rational(num: int, den: int)

  /** The `values` of an exifread tag: ratios (coordinates, altitude), text
      (hemisphere references, date stamps) or plain numbers (byte fields). */
  datatype TagValue = Ratios(ratios: seq<Rational>) | Text(text: string) | Numbers(numbers: seq<int>)

  /** One entry of the dictionary `exifread.process_file` returns. */
  datatype Tag = Tag(name: string, value: TagValue)

  /** One name `os.listdir` returns for an image directory: whether
      `os.path.isfile` holds for it, and the tags exifread reads from it in
      the order of its dictionary. */
  datatype Entry = Entry(name: string, isFile: bool, tags: seq<Tag>)

  /** `len(values)`. */
  function Length(v: TagValue): nat {
    match v
    case Ratios(rs) => |rs|
    case Text(s) => |s|
    case Numbers(ns) => |ns|
  }

  /** Python truthiness of the values: a non-empty list or string. */
  predicate IsTruthy(v: TagValue) {
    Length(v) > 0
  }

  /** `float(value[i].num) / float(value[i].den)`: an IndexError past the end,
      an AttributeError when the element is a character or a number rather
      than a ratio, a ZeroDivisionError for a zero denominator. */
  function Component(v: TagValue, i: nat): (r: Result<real>)
    ensures r.Ok? <==> v.Ratios? && i < |v.ratios| && v.ratios[i].den != 0
    ensures r.Ok? ==> r.value * (v.ratios[i].den as real) == v.ratios[i].num as real
    ensures r.Err? ==> r.error == (if i >= Length(v) then IndexError
                                   else if v.Ratios? then ZeroDivisionError
                                   else AttributeError)
  {
    if i >= Length(v) then Err(IndexError)
    else if !v.Ratios? then Err(AttributeError)
    else if v.ratios[i].den == 0 then Err(ZeroDivisionError)
    else Ok((v.ratios[i].num as real) / (v.ratios[i].den as real))
  }

  /** `_convert_to_degress(value)`: degrees + minutes / 60 + seconds / 3600,
      the three components read and divided in that order. */
  function ConvertToDegrees(v: TagValue): (r: Result<real>)
    ensures r.Ok? <==> forall i :: 0 <= i < 3 ==> Component(v, i).Ok?
    ensures r.Ok? ==> 3600.0 * r.value
                      == 3600.0 * Component(v, 0).value + 60.0 * Component(v, 1).value + Component(v, 2).value
    ensures r.Err? ==> exists i :: 0 <= i < 3 && Component(v, i) == Err(r.error)
                                 && forall j :: 0 <= j < i ==> Component(v, j).Ok?
  {
    match Component(v, 0)
    case Err(e) => Err(e)
    case Ok(degree) =>
      match Component(v, 1)
      case Err(e) => Err(e)
      case Ok(minute) =>
        match Component(v, 2)
        case Err(e) => Err(e)
        case Ok(second) => Ok(degree + (minute / 60.0) + (second / 3600.0))
  }

  /** The integer value of whole degrees, minutes and seconds in seconds of arc. */
  function ArcSeconds(d: int, m: int, s: int): int {
    3600 * d + 60 * m + s
  }

  /** Whole-unit degrees, minutes and seconds convert to their arc seconds
      over 3600. */
  lemma WholeUnitsConvert(d: int, m: int, s: int)
    ensures ConvertToDegrees(Ratios([Rational(d, 1), Rational(m, 1), Rational(s, 1)]))
         == Ok(ArcSeconds(d, m, s) as real / 3600.0)
  {
    var v := Ratios([Rational(d, 1), Rational(m, 1), Rational(s, 1)]);
    assert (d as real) / (1 as real) == d as real;
    assert (m as real) / (1 as real) == m as real;
    assert (s as real) / (1 as real) == s as real;
    assert Component(v, 0) == Ok(d as real);
    assert Component(v, 1) == Ok(m as real);
    assert Component(v, 2) == Ok(s as real);
  }

  /** The conversion loses nothing on whole units in range: two readings with
      minutes and seconds in [0, 60) that give the same decimal degrees are the
      same reading. */
  lemma WholeUnitsDetermined(d1: int, m1: int, s1: int, d2: int, m2: int, s2: int)
    requires 0 <= m1 < 60 && 0 <= s1 < 60 && 0 <= m2 < 60 && 0 <= s2 < 60
    requires ConvertToDegrees(Ratios([Rational(d1, 1), Rational(m1, 1), Rational(s1, 1)]))
          == ConvertToDegrees(Ratios([Rational(d2, 1), Rational(m2, 1), Rational(s2, 1)]))
    ensures d1 == d2 && m1 == m2 && s1 == s2
  {
    WholeUnitsConvert(d1, m1, s1);
    WholeUnitsConvert(d2, m2, s2);
    assert ArcSeconds(d1, m1, s1) == ArcSeconds(d2, m2, s2);
    assert 3600 * (d1 - d2) == 60 * (m2 - m1) + (s2 - s1);
    assert d1 == d2;
    assert 60 * (m1 - m2) == s2 - s1;
  }

  /** 10 degrees 30 minutes 0 seconds is 10.5 degrees. */
  lemma TenAndAHalfDegrees()
    ensures ConvertToDegrees(Ratios([Rational(10, 1), Rational(30, 1), Rational(0, 1)])) == Ok(10.5)
  {
    WholeUnitsConvert(10, 30, 0);
  }

  /** `if ref != positive: x = 0 - x`: anything but exactly the positive
      reference letter, including a missing or non-text value, negates. */
  function Hemisphere(x: real, ref: TagValue, positive: string): (r: real)
    ensures r == x || r == -x
    ensures ref == Text(positive) || x == 0.0 <==> r == x
  {
    if ref != Text(positive) then 0.0 - x else x
  }

  /** "S" against "N" and "W" against "E" negate a positive value. */
  lemma SouthAndWestNegate(x: real)
    requires x > 0.0
    ensures Hemisphere(x, Text("S"), "N") == -x
    ensures Hemisphere(x, Text("W"), "E") == -x
  {
    assert Text("S") != Text("N");
    assert Text("W") != Text("E");
  }

  /** `gps_altitude[0].den` and the elevation it guards: no elevation for a
      zero denominator, `num / den` otherwise. */
  function Altitude(v: TagValue): (r: Result<Option<real>>)
    ensures r == Err(IndexError) <==> Length(v) == 0
    ensures r == Err(AttributeError) <==> Length(v) > 0 && !v.Ratios?
    ensures r == Ok(None) <==> v.Ratios? && |v.ratios| > 0 && v.ratios[0].den == 0
    ensures r.Ok? && r.value.Some? ==>
      && v.Ratios? && |v.ratios| > 0 && v.ratios[0].den != 0
      && r.value.value * (v.ratios[0].den as real) == v.ratios[0].num as real
  {
    if Length(v) == 0 then Err(IndexError)
    else if !v.Ratios? then Err(AttributeError)
    else if v.ratios[0].den == 0 then Ok(None)
    else Ok(Some((v.ratios[0].num as real) / (v.ratios[0].den as real)))
  }

  /** The five `gps_info` keys `get_lat_lon_ele` reads. */
  const FixKeys: seq<string> := ["GPSLatitude", "GPSLatitudeRef", "GPSLongitude", "GPSLongitudeRef", "GPSAltitude"]

  lemma FixKeysAre()
    ensures |FixKeys| == 5
    ensures FixKeys[0] == "GPSLatitude" && FixKeys[1] == "GPSLatitudeRef"
    ensures FixKeys[2] == "GPSLongitude" && FixKeys[3] == "GPSLongitudeRef"
    ensures FixKeys[4] == "GPSAltitude"
  {
  }

  /** What `get_lat_lon_ele` yields once its gate has let the five values in:
      both coordinates and, when the altitude has a non-zero denominator, the
      elevation. */
  datatype Fix = Fix(lat: real, lon: real, ele: Option<real>)

  /** The body of `get_lat_lon_ele` behind its gate: latitude converted and
      signed, then longitude, then the altitude; the first raise wins. */
  function Locate(lat: TagValue, latRef: TagValue, lon: TagValue, lonRef: TagValue, alt: TagValue): (r: Result<Fix>)
    ensures r.Ok? <==> ConvertToDegrees(lat).Ok? && ConvertToDegrees(lon).Ok? && Altitude(alt).Ok?
    ensures ConvertToDegrees(lat).Err? ==> r == Err(ConvertToDegrees(lat).error)
    ensures ConvertToDegrees(lat).Ok? && ConvertToDegrees(lon).Err? ==> r == Err(ConvertToDegrees(lon).error)
    ensures ConvertToDegrees(lat).Ok? && ConvertToDegrees(lon).Ok? && Altitude(alt).Err? ==> r == Err(Altitude(alt).error)
    ensures r.Ok? ==>
      && r.value.lat == Hemisphere(ConvertToDegrees(lat).value, latRef, "N")
      && r.value.lon == Hemisphere(ConvertToDegrees(lon).value, lonRef, "E")
      && r.value.ele == Altitude(alt).value
  {
    match ConvertToDegrees(lat)
    case Err(e) => Err(e)
    case Ok(la) =>
      match ConvertToDegrees(lon)
      case Err(e) => Err(e)
      case Ok(lo) =>
        match Altitude(alt)
        case Err(e) => Err(e)
        case Ok(ele) => Ok(Fix(Hemisphere(la, latRef, "N"), Hemisphere(lo, lonRef, "E"), ele))
  }

  /** The tag stores its values under `key` in the GPS dictionary: its name
      starts with "GPS" and `key` is the second space-separated field. */
  predicate Sets(tag: Tag, key: string) {
    StartsWith(tag.name, "GPS") && ' ' in tag.name && Split(tag.name, ' ')[1] == key
  }

  /** One pass of the tag loop's GPS branch: `key = tag.split(' ')[1]`, an
      IndexError when the name has no space, nothing for a non-GPS tag. */
  function GpsEntry(tag: Tag): (r: Result<Option<(string, TagValue)>>)
    ensures r.Err? <==> StartsWith(tag.name, "GPS") && ' ' !in tag.name
    ensures r.Err? ==> r.error == IndexError
    ensures r.Ok? && r.value.Some? <==> StartsWith(tag.name, "GPS") && ' ' in tag.name
    ensures r.Ok? && r.value.Some? ==> Sets(tag, r.value.value.0) && r.value.value.1 == tag.value
  {
    if !StartsWith(tag.name, "GPS") then Ok(None)
    else
      var fields := Split(tag.name, ' ');
      if |fields| < 2 then Err(IndexError) else Ok(Some((fields[1], tag.value)))
  }

  /** exifread names a GPS field `GPS <key>`, as in "GPS GPSLatitude": such a
      tag is stored under `<key>` with its values. */
  lemma GpsTagStoresUnderKey(key: string, value: TagValue)
    requires ' ' !in key
    ensures GpsEntry(Tag("GPS " + key, value)) == Ok(Some((key, value)))
  {
    var name := "GPS " + key;
    assert name == "GPS" + [' '] + key;
    SplitWithoutSep(key, ' ');
    SplitAtFirstSep("GPS", key, ' ');
    assert name[..3] == "GPS";
  }

  /** The `gps_info` dictionary the tag loop builds: every key some GPS tag
      sets, with the values of the last tag that sets it; an IndexError for
      the first GPS tag without a space. */
  function CollectGps(tags: seq<Tag>): (r: Result<map<string, TagValue>>)
    ensures r.Err? <==> exists i :: 0 <= i < |tags| && StartsWith(tags[i].name, "GPS") && ' ' !in tags[i].name
    ensures r.Err? ==> r.error == IndexError
    ensures r.Ok? ==> forall key :: key in r.value <==> exists i :: 0 <= i < |tags| && Sets(tags[i], key)
    ensures r.Ok? ==> forall i, key ::
              (0 <= i < |tags| && Sets(tags[i], key) && forall j :: i < j < |tags| ==> !Sets(tags[j], key))
              ==> r.value[key] == tags[i].value
  {
    GpsFailure(tags);
    GpsKeys(tags);
    GpsLastValues(tags);
    KeyedRun(tags, GpsEntry)
  }

  /** On a tag whose step succeeds, writing `key` is setting it. */
  lemma WritesIsSets(tag: Tag, key: string)
    requires GpsEntry(tag).Ok?
    ensures Writes(GpsEntry(tag), key) <==> Sets(tag, key)
  {
  }

  lemma GpsFailure(tags: seq<Tag>)
    ensures KeyedRun(tags, GpsEntry).Err? <==>
            exists i :: 0 <= i < |tags| && StartsWith(tags[i].name, "GPS") && ' ' !in tags[i].name
    ensures KeyedRun(tags, GpsEntry).Err? ==> KeyedRun(tags, GpsEntry).error == IndexError
  {
  }

  lemma GpsKeys(tags: seq<Tag>)
    ensures KeyedRun(tags, GpsEntry).Ok? ==>
              forall key :: key in KeyedRun(tags, GpsEntry).value <==> exists i :: 0 <= i < |tags| && Sets(tags[i], key)
  {
    var r := KeyedRun(tags, GpsEntry);
    if r.Ok? {
      forall key ensures key in r.value <==> exists i :: 0 <= i < |tags| && Sets(tags[i], key) {
        if key in r.value {
          var i :| 0 <= i < |tags| && Writes(GpsEntry(tags[i]), key);
          WritesIsSets(tags[i], key);
        }
        if exists i :: 0 <= i < |tags| && Sets(tags[i], key) {
          var i :| 0 <= i < |tags| && Sets(tags[i], key);
          WritesIsSets(tags[i], key);
        }
      }
    }
  }

  lemma GpsLastValues(tags: seq<Tag>)
    ensures KeyedRun(tags, GpsEntry).Ok? ==> forall i, key ::
              (0 <= i < |tags| && Sets(tags[i], key) && forall j :: i < j < |tags| ==> !Sets(tags[j], key))
              ==> KeyedRun(tags, GpsEntry).value[key] == tags[i].value
  {
    var r := KeyedRun(tags, GpsEntry);
    if r.Ok? {
      forall i, key | 0 <= i < |tags| && Sets(tags[i], key) && forall j :: i < j < |tags| ==> !Sets(tags[j], key)
        ensures key in r.value && r.value[key] == tags[i].value
      {
        WritesIsSets(tags[i], key);
        forall j | i < j < |tags| ensures !Writes(GpsEntry(tags[j]), key) {
          WritesIsSets(tags[j], key);
        }
        assert LastWriter(tags, GpsEntry, i, key);
      }
    }
  }
}
