/** Stamp waypoint names (`_import_stamp_points` in model/graph_data.py,
    `_import_stampPoints` in model/GraphData.py): the stamp number is
    `int(name[3:6])` and the stamp's name is `name[7:]`. Python's slicing
    clamps out-of-range bounds and its `int()` accepts surrounding
    whitespace, a sign and single underscores between digits; both are
    written out here. */
module StampNames {
  import opened Wrappers

  /* ---------------------------------------------------------------------
     Python slicing with non-negative bounds
     --------------------------------------------------------------------- */

  function Min(a: nat, b: nat): nat { if a <= b then a else b }

  /** `s[lo:hi]` for `0 <= lo`, `0 <= hi`: bounds past the end are clamped
      and an empty range gives the empty string. */
  function Slice(s: string, lo: nat, hi: nat): (r: string)
    ensures |r| == if Min(hi, |s|) <= lo then 0 else Min(hi, |s|) - lo
    ensures forall k :: 0 <= k < |r| ==> r[k] == s[lo + k]
  {
    if Min(hi, |s|) <= lo then "" else s[lo..Min(hi, |s|)]
  }

  /** `s[lo:]`. */
  function Drop(s: string, lo: nat): (r: string)
    ensures |s| <= lo ==> r == ""
    ensures lo < |s| ==> s == s[..lo] + r
  {
    Slice(s, lo, |s|)
  }

  /* ---------------------------------------------------------------------
     Python `int()` on a string, base 10
     --------------------------------------------------------------------- */

  datatype IntError = ValueError(literal: string)

  /** The ASCII whitespace `int()` strips: blank, `\t`, `\n`, `\v`, `\f`
      and `\r`. The information separators U+001C to U+001F are not among
      them, although `str.isspace()` accepts them. */
  predicate IsSpace(c: char)
  {
    c == ' ' || c == '\t' || c == '\n' || c == '\U{B}' || c == '\U{C}' || c == '\r'
  }

  predicate IsDigit(c: char) { '0' <= c <= '9' }

  function DigitValue(c: char): (v: nat)
    requires IsDigit(c)
    ensures v < 10
  {
    (c as int - '0' as int) as nat
  }

  function DigitChar(v: nat): (c: char)
    requires v < 10
    ensures IsDigit(c) && DigitValue(c) == v
  {
    ('0' as int + v) as char
  }

  /** Leading whitespace removed. */
  function StripLeft(s: string): (r: string)
    ensures |r| <= |s| && r == s[|s| - |r|..]
    ensures forall k :: 0 <= k < |s| - |r| ==> IsSpace(s[k])
    ensures |r| > 0 ==> !IsSpace(r[0])
  {
    if |s| > 0 && IsSpace(s[0]) then StripLeft(s[1..]) else s
  }

  /** Trailing whitespace removed. */
  function StripRight(s: string): (r: string)
    ensures |r| <= |s| && r == s[..|r|]
    ensures forall k :: |r| <= k < |s| ==> IsSpace(s[k])
    ensures |r| > 0 ==> !IsSpace(r[|r| - 1])
  {
    if |s| > 0 && IsSpace(s[|s| - 1]) then StripRight(s[..|s| - 1]) else s
  }

  function Strip(s: string): string
  {
    StripRight(StripLeft(s))
  }

  /** Digits, with single underscores allowed between two digits. */
  predicate DigitGroups(s: string)
  {
    && |s| > 0
    && IsDigit(s[0]) && IsDigit(s[|s| - 1])
    && (forall k :: 0 <= k < |s| ==> IsDigit(s[k]) || s[k] == '_')
    && (forall k :: 0 <= k < |s| - 1 ==> s[k] == '_' ==> s[k + 1] != '_')
  }

  /** The value of the digits of `s`, underscores skipped. */
  function DigitsValue(s: string): (v: nat)
    requires forall k :: 0 <= k < |s| ==> IsDigit(s[k]) || s[k] == '_'
  {
    if |s| == 0 then 0
    else if s[|s| - 1] == '_' then DigitsValue(s[..|s| - 1])
    else 10 * DigitsValue(s[..|s| - 1]) + DigitValue(s[|s| - 1])
  }

  /** The literal Python's `int()` accepts once whitespace is stripped. */
  predicate IntLiteral(t: string)
  {
    if |t| > 0 && (t[0] == '+' || t[0] == '-') then DigitGroups(t[1..]) else DigitGroups(t)
  }

  /** What `int()` makes of the stripped text `t` of its argument `s`. */
  function ReadStripped(t: string, s: string): (r: Result<int, IntError>)
    ensures r.Ok? <==> IntLiteral(t)
    ensures r.Err? ==> r.error == ValueError(s)
  {
    if |t| > 0 && t[0] == '-' && DigitGroups(t[1..]) then Ok(-(DigitsValue(t[1..]) as int))
    else if |t| > 0 && t[0] == '+' && DigitGroups(t[1..]) then Ok(DigitsValue(t[1..]))
    else if |t| > 0 && (t[0] == '+' || t[0] == '-') then Err(ValueError(s))
    else if DigitGroups(t) then Ok(DigitsValue(t))
    else Err(ValueError(s))
  }

  /** Python's `int(s)`. */
  function PyInt(s: string): (r: Result<int, IntError>)
    ensures r.Ok? <==> IntLiteral(Strip(s))
    ensures r.Err? ==> r.error == ValueError(s)
  {
    ReadStripped(Strip(s), s)
  }

  /** Three-digit, zero-padded decimal rendering of `k`. */
  function Pad3(k: nat): (r: string)
    requires k < 1000
    ensures |r| == 3 && forall c :: c in r ==> IsDigit(c)
  {
    [DigitChar(k / 100), DigitChar(k / 10 % 10), DigitChar(k % 10)]
  }

  lemma StripNoSpace(s: string)
    requires forall c :: c in s ==> !IsSpace(c)
    ensures Strip(s) == s
  {
    if |s| > 0 {
      assert s[0] in s;
      assert s[|s| - 1] in s;
    }
  }

  /** `int()` reads back what `Pad3` renders. */
  lemma PyIntPad3(k: nat)
    requires k < 1000
    ensures PyInt(Pad3(k)) == Ok(k)
  {
    var s := Pad3(k);
    StripNoSpace(s);
    Pad3Value(k);
    assert s[0] != '+' && s[0] != '-';
  }

  /** `Pad3` renders digits only, worth `k`. */
  lemma Pad3Value(k: nat)
    requires k < 1000
    ensures DigitGroups(Pad3(k)) && DigitsValue(Pad3(k)) == k
  {
    var s := Pad3(k);
    ThreeDigitsValue(k / 100, k / 10 % 10, k % 10);
    assert s == [DigitChar(k / 100), DigitChar(k / 10 % 10), DigitChar(k % 10)];
    DecimalDigits(k);
  }

  /** Three digit characters are worth their place values. */
  lemma ThreeDigitsValue(x: nat, y: nat, z: nat)
    requires x < 10 && y < 10 && z < 10
    ensures DigitsValue([DigitChar(x), DigitChar(y), DigitChar(z)]) == 100 * x + 10 * y + z
  {
    var s := [DigitChar(x), DigitChar(y), DigitChar(z)];
    var s0, s1 := s[..1], s[..2];
    assert s0[..0] == [] && s1[..1] == s0 && s[..2] == s1;
    assert DigitsValue(s0) == x;
    assert DigitsValue(s1) == 10 * x + y;
  }

  /** A number below 1000 is the sum of its three decimal digits' place
      values. */
  lemma DecimalDigits(k: nat)
    requires k < 1000
    ensures k == 100 * (k / 100) + 10 * (k / 10 % 10) + k % 10
  {
    assert k / 10 == 10 * (k / 100) + k / 10 % 10;
    assert k == 10 * (k / 10) + k % 10;
  }

  lemma {:induction false} StripLeftSpaces(pre: string, x: string)
    requires forall c :: c in pre ==> IsSpace(c)
    ensures StripLeft(pre + x) == StripLeft(x)
  {
    if |pre| > 0 {
      assert pre[0] in pre;
      assert (pre + x)[0] == pre[0];
      assert (pre + x)[1..] == pre[1..] + x;
      StripLeftSpaces(pre[1..], x);
    } else {
      assert pre + x == x;
    }
  }

  lemma {:induction false} StripRightSpaces(x: string, post: string)
    requires forall c :: c in post ==> IsSpace(c)
    ensures StripRight(x + post) == StripRight(x)
  {
    if |post| > 0 {
      assert post[|post| - 1] in post;
      assert (x + post)[|x + post| - 1] == post[|post| - 1];
      assert (x + post)[..|x + post| - 1] == x + post[..|post| - 1];
      StripRightSpaces(x, post[..|post| - 1]);
    } else {
      assert x + post == x;
    }
  }

  /** Whitespace around the text does not change what `int()` reads. */
  lemma PyIntIgnoresSpaces(s: string, pre: string, post: string)
    requires forall c :: c in pre ==> IsSpace(c)
    requires forall c :: c in post ==> IsSpace(c)
    requires |s| > 0 && !IsSpace(s[0]) && !IsSpace(s[|s| - 1])
    ensures PyInt(pre + s + post).Ok? <==> PyInt(s).Ok?
    ensures PyInt(s).Ok? ==> PyInt(pre + s + post) == PyInt(s)
  {
    var w := pre + s + post;
    assert w == pre + (s + post);
    StripLeftSpaces(pre, s + post);
    assert (s + post)[0] == s[0];
    assert StripLeft(s + post) == s + post;
    StripRightSpaces(s, post);
    assert StripRight(s) == s;
    assert Strip(w) == s;
    assert StripLeft(s) == s;
    assert Strip(s) == s;
    assert PyInt(w) == ReadStripped(s, w);
    assert PyInt(s) == ReadStripped(s, s);
    ReadStrippedValue(s, w, s);
  }

  /** The value read does not depend on the text kept for the error. */
  lemma ReadStrippedValue(t: string, a: string, b: string)
    ensures ReadStripped(t, a).Ok? ==> ReadStripped(t, a) == ReadStripped(t, b)
  {
  }

  /* ---------------------------------------------------------------------
     Waypoint names
     --------------------------------------------------------------------- */

  datatype StampName = StampName(stampId: int, title: string)

  /** `stamp_id = int(name[3:6])`, `name = name[7:]`; `int()` raising
      ValueError is the error result. */
  function ParseWaypointName(name: string): (r: Result<StampName, IntError>)
    ensures r.Ok? <==> PyInt(Slice(name, 3, 6)).Ok?
    ensures r.Ok? ==> r.value.stampId == PyInt(Slice(name, 3, 6)).value
    ensures r.Ok? ==> r.value.title == Drop(name, 7)
    ensures r.Err? ==> r.error == ValueError(Slice(name, 3, 6))
  {
    match PyInt(Slice(name, 3, 6))
    case Ok(id) => Ok(StampName(id, Drop(name, 7)))
    case Err(e) => Err(e)
  }

  /** A name of three prefix characters, a zero-padded three-digit stamp
      number, one separator and a title parses back to that number and
      title. */
  lemma NameRoundTrip(prefix: string, k: nat, sep: char, title: string)
    requires |prefix| == 3 && k < 1000
    ensures ParseWaypointName(prefix + Pad3(k) + [sep] + title) == Ok(StampName(k, title))
  {
    var name := prefix + Pad3(k) + [sep] + title;
    assert Slice(name, 3, 6) == Pad3(k);
    assert Drop(name, 7) == title;
    PyIntPad3(k);
  }

  /** A name shorter than four characters has no digits at [3:6]. */
  /** A string that does not start with whitespace keeps its first
      character when stripped. */
  lemma StripKeepsHead(s: string)
    requires |s| > 0 && !IsSpace(s[0])
    ensures |Strip(s)| > 0 && Strip(s)[0] == s[0]
  {
    assert StripLeft(s) == s;
  }

  /** An information separator (U+001C to U+001F) where the number starts
      is not stripped, so the name is rejected: `"000\x1c12 Title"` gives
      `int("\x1c12")`, a `ValueError`. */
  lemma SeparatorRejected(name: string)
    requires |name| >= 4 && '\U{1C}' <= name[3] <= '\U{1F}'
    ensures ParseWaypointName(name) == Err(ValueError(Slice(name, 3, 6)))
  {
    var s := Slice(name, 3, 6);
    assert s[0] == name[3];
    StripKeepsHead(s);
    var t := Strip(s);
    assert !IsDigit(t[0]) && t[0] != '+' && t[0] != '-';
    assert !DigitGroups(t);
    assert PyInt(s).Err?;
    var r := ParseWaypointName(name);
    assert r.Err? && r.error == ValueError(s);
  }

  lemma ShortNameRejected(name: string)
    requires |name| <= 3
    ensures ParseWaypointName(name) == Err(ValueError(""))
  {
    assert Slice(name, 3, 6) == "";
  }

  /** The title does not depend on the stamp number's characters. */
  lemma TitleIsSuffix(name: string)
    requires ParseWaypointName(name).Ok?
    ensures |name| >= 4
    ensures |name| >= 7 ==> name == name[..7] + ParseWaypointName(name).value.title
    ensures |name| <= 7 ==> ParseWaypointName(name).value.title == ""
  {
    if |name| < 4 {
      ShortNameRejected(name);
    }
  }

  /* ---------------------------------------------------------------------
     The import loop of graph_data.py:259-267 (and GraphData.py:85-90)
     --------------------------------------------------------------------- */

  datatype Waypoint = Waypoint(name: string, latitude: real, longitude: real)

  /** The properties of one created StampPoint node. */
  datatype StampRecord = StampRecord(stampId: int, name: string, latitude: real, longitude: real)

  /** `rec` is the node created for waypoint `w`: its name parsed, and the
      waypoint's position. */
  predicate Creates(w: Waypoint, rec: StampRecord)
  {
    var parsed := ParseWaypointName(w.name);
    parsed.Ok? && rec == StampRecord(parsed.value.stampId, parsed.value.title, w.latitude, w.longitude)
  }

  /** Creating one more node keeps the nodes and waypoints lined up. */
  lemma CreatesAppend(ws: seq<Waypoint>, created: seq<StampRecord>, rec: StampRecord)
    requires |created| < |ws| && Creates(ws[|created|], rec)
    requires forall q :: 0 <= q < |created| ==> Creates(ws[q], created[q])
    ensures forall q :: 0 <= q < |created| + 1 ==> Creates(ws[q], (created + [rec])[q])
  {
    forall q | 0 <= q < |created| + 1 ensures Creates(ws[q], (created + [rec])[q]) {
      if q < |created| {
        assert (created + [rec])[q] == created[q];
      }
    }
  }

  /** One node per waypoint, in file order; the waypoint count is returned.
      A name `int()` rejects raises, after the nodes before it were
      created. */
  method ImportStampPoints(waypoints: seq<Waypoint>) returns (created: seq<StampRecord>, r: Result<nat, IntError>)
    ensures |created| <= |waypoints|
    ensures forall k :: 0 <= k < |created| ==> Creates(waypoints[k], created[k])
    ensures r.Ok? <==> |created| == |waypoints|
    ensures r.Ok? ==> r.value == |waypoints|
    ensures r.Err? ==> ParseWaypointName(waypoints[|created|].name) == Err(r.error)
  {
    created := [];
    var k := 0;
    while k < |waypoints|
      invariant k <= |waypoints| && |created| == k
      invariant forall q :: 0 <= q < k ==> Creates(waypoints[q], created[q])
    {
      var w := waypoints[k];
      var parsed := ParseWaypointName(w.name);
      if parsed.Err? {
        return created, Err(parsed.error);
      }
      var rec := StampRecord(parsed.value.stampId, parsed.value.title, w.latitude, w.longitude);
      assert Creates(w, rec);
      CreatesAppend(waypoints, created, rec);
      created := created + [rec];
      k := k + 1;
    }
    r := Ok(|waypoints|);
  }
}
