/**
 Release versions (version.c, the version check of persistence.c, compatibility.c).
 */
module Version {
  import opened Wrappers
  import opened Decimal

  datatype Version = Version(major: nat, minor: nat, patch: nat)

  predicate Fits(v: Version) {
    v.major <= UINT32_MAX && v.minor <= UINT32_MAX && v.patch <= UINT32_MAX
  }

  function PrintVersion(v: Version): string {
    Print(v.major) + "." + Print(v.minor) + "." + Print(v.patch)
  }

  /** One canonical uint32 component at the front of `s`, and what follows it. */
  function Component(s: string): Option<(nat, string)> {
    var k := DigitRun(s);
    if k == 0 || (s[0] == '0' && k > 1) || Value(s[..k]) > UINT32_MAX then None
    else Some((Value(s[..k]), s[k..]))
  }

  /** The components still to come after `parts`; a dot follows each but the last. */
  function ParseRest(s: string, parts: seq<nat>): (r: Option<seq<nat>>)
    requires |parts| <= 3
    ensures r.Some? ==> |r.value| == 3
    decreases 3 - |parts|
  {
    if |parts| == 3 then (if s == "" then Some(parts) else None)
    else match Component(s)
      case None => None
      case Some((n, rest)) =>
        if |parts| == 2 then ParseRest(rest, parts + [n])
        else if rest == "" || rest[0] != '.' then None
        else ParseRest(rest[1..], parts + [n])
  }

  function ParseVersion(s: string): Option<Version> {
    match ParseRest(s, [])
    case None => None
    case Some(p) => Some(Version(p[0], p[1], p[2]))
  }

  lemma ComponentOfPrint(n: nat, rest: string)
    requires rest != "" ==> !IsDigit(rest[0])
    ensures Component(Print(n) + rest) == if n <= UINT32_MAX then Some((n, rest)) else None
  {
    PrintValue(n);
    RunOfDigits(Print(n), rest);
    var s := Print(n) + rest;
    assert s[..|Print(n)|] == Print(n) && s[|Print(n)|..] == rest;
  }

  lemma ComponentIsPrint(s: string)
    requires Component(s).Some?
    ensures var (n, rest) := Component(s).value;
            n <= UINT32_MAX && s == Print(n) + rest && (rest != "" ==> !IsDigit(rest[0]))
  {
    var k := DigitRun(s);
    assert s == s[..k] + s[k..];
    ValuePrint(s[..k]);
  }

  /** The components from the first, a dot before each but the first. */
  function Dotted(parts: seq<nat>): string {
    if |parts| == 0 then ""
    else if |parts| == 1 then Print(parts[0])
    else Print(parts[0]) + "." + Dotted(parts[1..])
  }

  lemma DottedThree(a: nat, b: nat, c: nat)
    ensures Dotted([a, b, c]) == PrintVersion(Version(a, b, c))
  {
    assert [a, b, c][1..] == [b, c] && [b, c][1..] == [c];
    var x, y, z := Print(a), Print(b), Print(c);
    assert Dotted([b, c]) == y + "." + z;
    assert x + "." + (y + "." + z) == x + "." + y + "." + z;
  }

  lemma {:induction false} RestOfDotted(more: seq<nat>, parts: seq<nat>)
    requires |parts| + |more| == 3
    ensures ParseRest(Dotted(more), parts)
         == if forall i :: 0 <= i < |more| ==> more[i] <= UINT32_MAX then Some(parts + more) else None
    decreases more
  {
    if |more| == 0 {
      assert parts + more == parts;
    } else {
      var rest := if |more| == 1 then "" else "." + Dotted(more[1..]);
      assert Dotted(more) == Print(more[0]) + rest;
      ComponentOfPrint(more[0], rest);
      assert |more| > 1 ==> rest[1..] == Dotted(more[1..]);
      RestOfDotted(more[1..], parts + [more[0]]);
      assert parts + [more[0]] + more[1..] == parts + more;
    }
  }

  /** Printing then parsing gives the version back; a component above 2^32-1 is refused. */
  lemma ParseOfPrint(v: Version)
    ensures ParseVersion(PrintVersion(v)) == if Fits(v) then Some(v) else None
  {
    var all := [v.major, v.minor, v.patch];
    RestOfDotted(all, []);
    DottedThree(v.major, v.minor, v.patch);
    assert [] + all == all;
    if !Fits(v) {
      assert all[0] > UINT32_MAX || all[1] > UINT32_MAX || all[2] > UINT32_MAX;
    }
  }

  lemma {:induction false} RestIsDotted(s: string, parts: seq<nat>)
    requires |parts| <= 3 && ParseRest(s, parts).Some?
    ensures var all := ParseRest(s, parts).value;
            parts <= all && s == Dotted(all[|parts|..]) &&
            forall i :: |parts| <= i < 3 ==> all[i] <= UINT32_MAX
    decreases 3 - |parts|
  {
    hide Component;
    hide Print;
    if |parts| < 3 {
      ComponentIsPrint(s);
      var (n, rest) := Component(s).value;
      var tail := if |parts| == 2 then rest else rest[1..];
      RestIsDotted(tail, parts + [n]);
      var all := ParseRest(s, parts).value;
      assert all[|parts|..][1..] == all[|parts| + 1..];
      assert |parts| < 2 ==> rest == "." + tail;
    }
  }

  /** Whatever parses is the canonical print of three uint32 values, and of exactly those. */
  lemma PrintOfParse(s: string)
    requires ParseVersion(s).Some?
    ensures Fits(ParseVersion(s).value) && PrintVersion(ParseVersion(s).value) == s
  {
    RestIsDotted(s, []);
    var p := ParseRest(s, []).value;
    assert p[0..] == [p[0], p[1], p[2]];
    DottedThree(p[0], p[1], p[2]);
  }

  /** The accepted strings are exactly the canonical prints of three uint32 values. */
  lemma AcceptsExactlyPrints(s: string)
    ensures ParseVersion(s).Some? <==> exists v :: Fits(v) && s == PrintVersion(v)
  {
    if ParseVersion(s).Some? {
      PrintOfParse(s);
    }
    if v :| Fits(v) && s == PrintVersion(v) {
      ParseOfPrint(v);
    }
  }

  /** What a component scanner may answer at position `p`. */
  ghost predicate ScanResult(text: string, p: nat, ok: bool, value: nat, q: nat)
    requires p <= |text|
  {
    if ok then p < q <= |text| && Component(text[p..]) == Some((value, text[q..]))
    else Component(text[p..]) == None
  }

  /** Inner loop of ota_version_parse: checked before each multiplication, so it never wraps. */
  method ScanChecked(text: string, p: nat) returns (ok: bool, part: nat, q: nat)
    requires p <= |text|
    ensures ScanResult(text, p, ok, part, q)
  {
    ghost var s := text[p..];
    ghost var k := DigitRun(s);
    part, q := 0, p;
    if p == |text| || !IsDigit(text[p]) ||
       (text[p] == '0' && p + 1 < |text| && IsDigit(text[p + 1])) {
      return false, 0, p;
    }
    while q < |text| && IsDigit(text[q])
      invariant p <= q <= p + k
      invariant part == Value(s[..q - p]) <= UINT32_MAX
    {
      var digit := DigitOf(text[q]);
      assert s[..q + 1 - p][..q - p] == s[..q - p];
      if part > (UINT32_MAX - digit) / 10 {
        PrefixValue(s[..k], q + 1 - p);
        assert s[..k][..q + 1 - p] == s[..q + 1 - p];
        return false, 0, p;
      }
      part := part * 10 + digit;
      q := q + 1;
    }
    assert s[k..] == text[q..];
    ok := true;
  }

  /** Inner loop of persisted_version_valid: a 64-bit accumulator checked after each digit. */
  method ScanWide(text: string, p: nat) returns (ok: bool, value: nat, q: nat)
    requires p <= |text|
    ensures ScanResult(text, p, ok, value, q)
  {
    ghost var s := text[p..];
    ghost var k := DigitRun(s);
    value, q := 0, p;
    if p == |text| || !IsDigit(text[p]) ||
       (text[p] == '0' && p + 1 < |text| && IsDigit(text[p + 1])) {
      return false, 0, p;
    }
    while q < |text| && IsDigit(text[q])
      invariant p <= q <= p + k
      invariant value == Value(s[..q - p]) <= UINT32_MAX
    {
      assert s[..q + 1 - p][..q - p] == s[..q - p];
      value := value * 10 + DigitOf(text[q]);
      q := q + 1;
      if value > UINT32_MAX {
        PrefixValue(s[..k], q - p);
        assert s[..k][..q - p] == s[..q - p];
        return false, 0, p;
      }
    }
    assert s[k..] == text[q..];
    ok := true;
  }

  /** ota_version_parse. */
  method VersionParse(text: string) returns (r: Option<Version>)
    ensures r == ParseVersion(text)
  {
    hide Component;
    var p, parts: seq<nat> := 0, [];
    ghost var spec := ParseRest(text, []);
    assert text[0..] == text;
    while |parts| < 3
      invariant 0 <= p <= |text| && |parts| <= 3 && (|parts| == 3 ==> p == |text|)
      invariant spec == ParseRest(text[p..], parts)
    {
      var ok, part, q := ScanChecked(text, p);
      if !ok {
        return None;
      }
      if |parts| < 2 {
        if q == |text| || text[q] != '.' {
          return None;
        }
        assert text[q..][1..] == text[q + 1..];
        q := q + 1;
      } else if q < |text| {
        assert ParseRest(text[q..], parts + [part]) == None;
        return None;
      }
      p, parts := q, parts + [part];
    }
    assert spec == Some(parts);
    return Some(Version(parts[0], parts[1], parts[2]));
  }

  /** persisted_version_valid: a second scanner that accepts the same strings. */
  method PersistedVersionValid(text: string) returns (valid: bool)
    ensures valid <==> ParseVersion(text).Some?
  {
    hide Component;
    var p, part := 0, 0;
    ghost var parts: seq<nat> := [];
    while part < 3
      invariant 0 <= p <= |text| && part == |parts| <= 3
      invariant ParseRest(text, []) == ParseRest(text[p..], parts)
    {
      var ok, value, q := ScanWide(text, p);
      if !ok {
        return false;
      }
      if part < 2 {
        if q == |text| || text[q] != '.' {
          return false;
        }
        assert text[q..][1..] == text[q + 1..];
        q := q + 1;
      }
      p, part, parts := q, part + 1, parts + [value];
    }
    return p == |text|;
  }

  /** ota_version_compare. */
  function Compare(left: Version, right: Version): (order: int)
    ensures -1 <= order <= 1
  {
    if left.major != right.major then (if left.major > right.major then 1 else -1)
    else if left.minor != right.minor then (if left.minor > right.minor then 1 else -1)
    else if left.patch != right.patch then (if left.patch > right.patch then 1 else -1)
    else 0
  }

  /** The number whose base-2^32 digits are the components. */
  function Rank(v: Version): nat {
    (v.major * (UINT32_MAX + 1) + v.minor) * (UINT32_MAX + 1) + v.patch
  }

  /** Comparison is the order of the 96-bit numbers the versions spell: a strict total order. */
  lemma CompareIsRank(a: Version, b: Version)
    requires Fits(a) && Fits(b)
    ensures Compare(a, b) > 0 <==> Rank(a) > Rank(b)
    ensures Compare(a, b) == 0 <==> Rank(a) == Rank(b)
    ensures Compare(a, b) == 0 <==> a == b
    ensures Compare(a, b) == -Compare(b, a)
  {
  }
}
