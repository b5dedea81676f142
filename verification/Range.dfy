/**
 Byte ranges at both ends: the server's parser and streaming loop (host_app/artifact_service.py,
 main.py) and the client's reading of Content-Range (download.c). Sections 14.1.2, 14.2 and 14.4 of
 RFC 9110.
 */
module Range {
  import opened Decimal
  import opened Wrappers
  import opened Bytes

  // ---------------------------------------------------------------- the server's parser

  /** The settings main.py passes on; 128 and 20 unless configured otherwise. */
  datatype Limits = Limits(header: int, digits: int)

  datatype Selection = Malformed | Unsatisfiable | Selected(start: nat, end: nat)

  /** str.isspace on the Latin-1 characters a header can hold. */
  predicate IsSpace(c: char) {
    var u := c as int;
    9 <= u <= 13 || 28 <= u <= 32 || u == 0x85 || u == 0xA0
  }

  function IndexOf(s: string, c: char): (k: nat)
    ensures k <= |s| && (k < |s| ==> s[k] == c) && c !in s[..k]
  {
    if s == "" || s[0] == c then 0
    else
      var k := IndexOf(s[1..], c);
      assert s[..k + 1] == [s[0]] + s[1..][..k];
      k + 1
  }

  /** _parse_bounded_uint */
  function Bounded(text: string, maxDigits: int): Option<nat> {
    if text == "" || |text| > maxDigits || !AllDigits(text) then None else Some(Value(text))
  }

  predicate HasPrefix(s: string, prefix: string) {
    |s| >= |prefix| && s[..|prefix|] == prefix
  }

  /** parse_single_range */
  function ParseSingleRange(header: string, size: int, limits: Limits): Selection {
    if |header| > limits.header || ',' in header || !HasPrefix(header, "bytes=") then Malformed
    else
      var expression := header[6..];
      var dash := IndexOf(expression, '-');
      if dash == |expression| || '-' in expression[dash + 1..] || exists i :: 0 <= i < |expression| && IsSpace(expression[i]) then Malformed
      else ParseBounds(expression[..dash], expression[dash + 1..], size, limits.digits)
  }

  function ParseBounds(startText: string, endText: string, size: int, maxDigits: int): Selection {
    if startText == "" && endText == "" then Malformed
    else if size <= 0 then Unsatisfiable
    else if startText == "" then
      match Bounded(endText, maxDigits)
      case None => Malformed
      case Some(n) => if n == 0 then Unsatisfiable else Selected(if size > n then size - n else 0, size - 1)
    else
      match Bounded(startText, maxDigits)
      case None => Malformed
      case Some(start) =>
        if start >= size then Unsatisfiable
        else if endText == "" then Selected(start, size - 1)
        else
          match Bounded(endText, maxDigits)
          case None => Malformed
          case Some(end) => if end < start then Unsatisfiable else Selected(start, if end < size - 1 then end else size - 1)
  }

  /** The three forms of a single byte range. */
  datatype Spec = From(first: string) | Between(first: string, last: string) | Suffix(length: string)

  predicate LegalSpec(s: Spec, maxDigits: int) {
    match s
    case From(a) => Bounded(a, maxDigits).Some?
    case Between(a, b) => Bounded(a, maxDigits).Some? && Bounded(b, maxDigits).Some?
    case Suffix(n) => Bounded(n, maxDigits).Some?
  }

  function SpecText(s: Spec): string {
    match s
    case From(a) => "bytes=" + a + "-"
    case Between(a, b) => "bytes=" + a + "-" + b
    case Suffix(n) => "bytes=" + "-" + n
  }

  /** The bytes of a nonempty file that a range names: `first` to `last` in order, or the last `length`. */
  ghost predicate Names(s: Spec, maxDigits: int, size: nat, start: nat, end: nat)
    requires LegalSpec(s, maxDigits)
  {
    && start <= end < size
    && match s
       case From(a) => start == Value(a) && end == size - 1
       case Between(a, b) => start == Value(a) <= Value(b) && (end == Value(b) || (end == size - 1 < Value(b)))
       case Suffix(n) => end == size - 1 && (end - start + 1 == Value(n) || (start == 0 && Value(n) > size))
  }

  lemma DigitsOnly(s: string, maxDigits: int)
    requires Bounded(s, maxDigits).Some?
    ensures '-' !in s && ',' !in s && forall i :: 0 <= i < |s| ==> !IsSpace(s[i])
  {
  }

  lemma {:induction false} IndexIs(s: string, c: char, k: nat)
    requires k < |s| && s[k] == c && c !in s[..k]
    ensures IndexOf(s, c) == k
  {
    if k > 0 {
      assert s[..k][0] == s[0];
      assert s[1..][..k - 1] == s[..k][1..];
      IndexIs(s[1..], c, k - 1);
    }
  }

  function FirstText(s: Spec): string { match s case From(a) => a case Between(a, _) => a case Suffix(_) => "" }

  function LastText(s: Spec): string { match s case From(_) => "" case Between(_, b) => b case Suffix(n) => n }

  lemma SpecSplits(s: Spec, maxDigits: int)
    requires LegalSpec(s, maxDigits)
    ensures var h, a, b := SpecText(s), FirstText(s), LastText(s);
      && HasPrefix(h, "bytes=") && h[6..] == a + "-" + b && ',' !in h
      && IndexOf(h[6..], '-') == |a| && h[6..][..|a|] == a && h[6..][|a| + 1..] == b
      && '-' !in b && forall i :: 0 <= i < |h[6..]| ==> !IsSpace(h[6..][i])
  {
    hide Value, IndexOf;
    var h, a, b := SpecText(s), FirstText(s), LastText(s);
    assert h == "bytes=" + (a + "-" + b);
    if a != "" {
      DigitsOnly(a, maxDigits);
    }
    if b != "" {
      DigitsOnly(b, maxDigits);
    }
    var e := a + "-" + b;
    NoComma(e, a, b);
    assert h[..6] == "bytes=" && h[6..] == e;
    assert e[|a|] == '-' && e[..|a|] == a && e[|a| + 1..] == b;
    IndexIs(e, '-', |a|);
  }

  lemma NoComma(e: string, a: string, b: string)
    requires e == a + "-" + b && ',' !in a && ',' !in b
    requires (forall i :: 0 <= i < |a| ==> !IsSpace(a[i])) && forall i :: 0 <= i < |b| ==> !IsSpace(b[i])
    ensures ',' !in "bytes=" + e && forall i :: 0 <= i < |e| ==> !IsSpace(e[i])
  {
  }

  /** A well-formed range selects exactly the bytes it names, or is unsatisfiable when it names none. */
  lemma ParsesSpec(s: Spec, size: nat, start: nat, end: nat, limits: Limits)
    requires LegalSpec(s, limits.digits) && |SpecText(s)| <= limits.header
    ensures ParseSingleRange(SpecText(s), size, limits) == Selected(start, end) <==> Names(s, limits.digits, size, start, end)
    ensures ParseSingleRange(SpecText(s), size, limits) != Malformed
  {
    hide Value, AllDigits;
    SpecSplits(s, limits.digits);
    if s.Suffix? {
      assert s.length != "";
    } else {
      assert s.first != "";
    }
  }

  /** Nothing else selects anything. */
  lemma OnlySpecs(header: string, size: int, limits: Limits) returns (s: Spec)
    requires ParseSingleRange(header, size, limits).Selected?
    ensures LegalSpec(s, limits.digits) && header == SpecText(s) && |header| <= limits.header && size > 0
  {
    hide Value, AllDigits, IsSpace;
    var expression := header[6..];
    var dash := IndexOf(expression, '-');
    var a, b := expression[..dash], expression[dash + 1..];
    s := if a == "" then Suffix(b) else if b == "" then From(a) else Between(a, b);
    TextOfSpec(header, expression, dash, s);
  }

  lemma TextOfSpec(header: string, expression: string, dash: nat, s: Spec)
    requires HasPrefix(header, "bytes=") && expression == header[6..] && dash < |expression| && expression[dash] == '-'
    requires var a, b := expression[..dash], expression[dash + 1..];
      s == if a == "" then Suffix(b) else if b == "" then From(a) else Between(a, b)
    ensures header == SpecText(s)
  {
    var a, b := expression[..dash], expression[dash + 1..];
    assert expression == a + "-" + b && header == "bytes=" + expression;
  }

  // ---------------------------------------------------------------- the client's reading

  datatype Number = Number(value: nat, rest: string)

  /** decimal: the digits in front, unless their number leaves int64. */
  function TakeDecimal(s: string): (r: Option<Number>)
    ensures r.Some? ==> |r.value.rest| < |s| && r.value.value <= INT64_MAX
  {
    var k := DigitRun(s);
    if k == 0 || Value(s[..k]) > INT64_MAX then None else Some(Number(Value(s[..k]), s[k..]))
  }

  /** The scanning loop itself: its guard never lets the product leave int64. */
  method ScanDecimal(s: string) returns (r: Option<Number>)
    ensures r == TakeDecimal(s)
  {
    var n: nat, p := 0, 0;
    if s == "" || !IsDigit(s[0]) {
      return None;
    }
    hide Value, DigitRun, AllDigits;
    ghost var k := DigitRun(s);
    ValueNone(s);
    while p < |s| && IsDigit(s[p])
      invariant 0 <= p <= k && n == PrefixNumber(s, p) <= INT64_MAX
    {
      RunCovers(s, p);
      var digit := DigitOf(s[p]);
      OneMoreDigit(s, p);
      if n > (INT64_MAX - digit) / 10 {
        return None;
      }
      n := n * 10 + digit;
      p := p + 1;
    }
    RunEnds(s, p);
    r := Some(Number(n, s[p..]));
  }

  /** The number of the first `p` digits. */
  ghost function PrefixNumber(s: string, p: nat): nat
    requires p <= DigitRun(s)
  {
    assert s[..p] == s[..DigitRun(s)][..p];
    Value(s[..p])
  }

  lemma ValueNone(s: string)
    ensures PrefixNumber(s, 0) == 0 && (s != "" && IsDigit(s[0]) ==> DigitRun(s) > 0)
  {
  }

  lemma OneMoreDigit(s: string, p: nat)
    requires p < DigitRun(s)
    ensures IsDigit(s[p]) && PrefixNumber(s, p + 1) == PrefixNumber(s, p) * 10 + DigitOf(s[p]) <= Value(s[..DigitRun(s)])
  {
    var k := DigitRun(s);
    assert s[..k][p] == s[p];
    assert s[..p + 1][..p] == s[..p];
    PrefixValue(s[..k], p + 1);
    assert s[..k][..p + 1] == s[..p + 1];
  }

  lemma RunEnds(s: string, p: nat)
    requires p <= DigitRun(s)
    ensures p < DigitRun(s) ==> IsDigit(s[p])
  {
    if p < DigitRun(s) {
      assert s[..DigitRun(s)][p] == s[p];
    }
  }

  lemma RunCovers(s: string, p: nat)
    requires p < |s| && p <= DigitRun(s) && IsDigit(s[p])
    ensures p < DigitRun(s)
  {
  }

  /** exact_range on a Content-Range value. */
  predicate ExactRange(s: string, partial: nat, expected: nat) {
    HasPrefix(s, "bytes ") &&
    var first := TakeDecimal(s[6..]);
    first.Some? && first.value.rest != "" && first.value.rest[0] == '-' &&
    var last := TakeDecimal(first.value.rest[1..]);
    last.Some? && last.value.rest != "" && last.value.rest[0] == '/' &&
    var total := TakeDecimal(last.value.rest[1..]);
    total.Some? && total.value.rest == "" &&
    first.value.value == partial && partial <= last.value.value == expected - 1 && total.value.value == expected
  }

  datatype Action = Reject | WriteZero | Append | Restart | Verify

  /** ota_download_response; `range` is the Content-Range value if one was sent. */
  function Response(partial: nat, expected: nat, status: int, range: Option<string>): Action {
    if expected == 0 || expected > INT64_MAX || partial > expected then Reject
    else if status == 416 then (if partial == expected then Verify else Restart)
    else if status == 200 then (if range.Some? then Reject else WriteZero)
    else if status == 206 then
      (if 0 < partial < expected && range.Some? && ExactRange(range.value, partial, expected) then Append else Reject)
    else Reject
  }

  lemma TakesDigits(digits: string, rest: string)
    requires digits != "" && AllDigits(digits) && Value(digits) <= INT64_MAX && (rest != "" ==> !IsDigit(rest[0]))
    ensures TakeDecimal(digits + rest) == Some(Number(Value(digits), rest))
  {
    RunOfDigits(digits, rest);
    assert (digits + rest)[..|digits|] == digits && (digits + rest)[|digits|..] == rest;
  }

  ghost predicate Numeral(digits: string, n: nat) {
    digits != "" && AllDigits(digits) && Value(digits) == n
  }

  lemma TakenDigits(s: string) returns (digits: string)
    requires TakeDecimal(s).Some?
    ensures Numeral(digits, TakeDecimal(s).value.value) && s == digits + TakeDecimal(s).value.rest
  {
    hide Value, DigitRun;
    digits := s[..DigitRun(s)];
  }

  function RangeText(a: string, b: string, c: string): string {
    "bytes " + (a + ("-" + (b + ("/" + c))))
  }

  ghost predicate SpellsTail(s: string, partial: nat, expected: nat)
    requires expected > 0
  {
    exists a: string, b: string, c: string ::
      Numeral(a, partial) && Numeral(b, expected - 1) && Numeral(c, expected) && s == RangeText(a, b, c)
  }

  /** A Content-Range is taken exactly when it spells out the tail the client is missing. */
  lemma ExactRangeIsTheTail(s: string, partial: nat, expected: nat)
    requires 0 < expected <= INT64_MAX
    ensures ExactRange(s, partial, expected) <==> partial < expected && SpellsTail(s, partial, expected)
  {
    hide ExactRange, Numeral, RangeText;
    if ExactRange(s, partial, expected) {
      ExactSpells(s, partial, expected);
    }
    if partial < expected {
      if a: string, b: string, c: string :| Numeral(a, partial) && Numeral(b, expected - 1) && Numeral(c, expected) && s == RangeText(a, b, c) {
        TextIsExact(a, b, c, partial, expected);
      }
    }
  }

  lemma ExactSpells(s: string, partial: nat, expected: nat)
    requires 0 < expected <= INT64_MAX && ExactRange(s, partial, expected)
    ensures partial < expected && SpellsTail(s, partial, expected)
  {
    hide TakeDecimal, Numeral;
    var first := TakeDecimal(s[6..]).value;
    var last := TakeDecimal(first.rest[1..]).value;
    var a := TakenDigits(s[6..]);
    var b := TakenDigits(first.rest[1..]);
    var c := TakenDigits(last.rest[1..]);
    assert last.rest == "/" + c && first.rest == "-" + (b + last.rest) && s == "bytes " + (a + first.rest);
    assert s == RangeText(a, b, c);
  }

  lemma TextIsExact(a: string, b: string, c: string, partial: nat, expected: nat)
    requires partial < expected <= INT64_MAX && Numeral(a, partial) && Numeral(b, expected - 1) && Numeral(c, expected)
    ensures ExactRange(RangeText(a, b, c), partial, expected)
  {
    hide Value, AllDigits, TakeDecimal;
    var s := RangeText(a, b, c);
    assert s[..6] == "bytes " && s[6..] == a + ("-" + (b + ("/" + c)));
    var afterA, afterB := "-" + (b + ("/" + c)), "/" + c;
    TakesDigits(a, afterA);
    assert afterA[1..] == b + afterB;
    TakesDigits(b, afterB);
    assert afterB[1..] == c + "";
    TakesDigits(c, "");
  }

  // ---------------------------------------------------------------- both ends together

  /** What curl sends for CURLOPT_RANGE "p-". */
  function RangeHeader(p: nat): string {
    "bytes=" + Print(p) + "-"
  }

  /** main.py's 206 header. */
  function ContentRange(start: nat, end: nat, size: nat): string {
    RangeText(Print(start), Print(end), Print(size))
  }

  /** The server's limits leave room for an offset. */
  predicate Room(p: nat, limits: Limits) {
    |Print(p)| <= limits.digits && |RangeHeader(p)| <= limits.header
  }

  /**
   For every interrupted download the server selects the missing tail, exactly if its limits have
   room for the offset; and the client recognises its answer.
   */
  lemma EndsAgree(p: nat, size: nat, limits: Limits)
    requires 0 < p < size <= INT64_MAX
    ensures ParseSingleRange(RangeHeader(p), size, limits) == Selected(p, size - 1) <==> Room(p, limits)
    ensures Response(p, size, 206, Some(ContentRange(p, size - 1, size))) == Append
  {
    hide Value, AllDigits, ExactRange, ParseSingleRange, Print;
    PrintValue(p);
    PrintValue(size - 1);
    PrintValue(size);
    CanonicalIsNumeral(Print(p), p);
    CanonicalIsNumeral(Print(size - 1), size - 1);
    CanonicalIsNumeral(Print(size), size);
    TextIsExact(Print(p), Print(size - 1), Print(size), p, size);
    var header, first := RangeHeader(p), From(Print(p));
    assert SpecText(first) == header;
    if Room(p, limits) {
      CanonicalIsBounded(Print(p), limits.digits);
      ParsesSpec(first, size, p, size - 1, limits);
    } else if ParseSingleRange(header, size, limits).Selected? {
      var s := OnlySpecs(header, size, limits);
      OneFirst(s, Print(p), limits.digits);
    }
  }

  lemma OneFirst(s: Spec, digits: string, maxDigits: int)
    requires LegalSpec(s, maxDigits) && SpecText(s) == "bytes=" + digits + "-" && digits != "" && AllDigits(digits)
    ensures |digits| <= maxDigits
  {
    hide Value, AllDigits;
    SpecSplits(s, maxDigits);
    var e := SpecText(s)[6..];
    assert e == digits + "-" && e[|digits|] == '-' && e[..|digits|] == digits;
    NoDash(digits);
    IndexIs(e, '-', |digits|);
  }

  lemma NoDash(digits: string)
    requires AllDigits(digits)
    ensures '-' !in digits
  {
  }

  lemma CanonicalIsNumeral(s: string, n: nat)
    requires Canonical(s) && Value(s) == n
    ensures Numeral(s, n)
  {
  }

  lemma CanonicalIsBounded(s: string, maxDigits: int)
    requires Canonical(s) && |s| <= maxDigits
    ensures Bounded(s, maxDigits) == Some(Value(s))
  {
  }

  /** Nineteen digits and 26 characters are room enough for every artifact; the defaults are larger. */
  lemma AlwaysRoom(p: nat, limits: Limits)
    requires p <= INT64_MAX && limits.digits >= 19 && limits.header >= 26
    ensures Room(p, limits)
  {
    hide Print;
    TenTo19();
    PrintLength(p, 19);
  }

  lemma TenTo19()
    ensures INT64_MAX < Pow10(19)
  {
    assert Pow10(4) == 10_000;
    assert Pow10(8) == 10_000 * Pow10(4) by { assert Pow10(6) == 100 * Pow10(4); assert Pow10(8) == 100 * Pow10(6); }
    assert Pow10(12) == 10_000 * Pow10(8) by { assert Pow10(10) == 100 * Pow10(8); assert Pow10(12) == 100 * Pow10(10); }
    assert Pow10(16) == 10_000 * Pow10(12) by { assert Pow10(14) == 100 * Pow10(12); assert Pow10(16) == 100 * Pow10(14); }
    assert Pow10(19) == 1000 * Pow10(16) by { assert Pow10(18) == 100 * Pow10(16); assert Pow10(19) == 10 * Pow10(18); }
  }

  // ---------------------------------------------------------------- streaming

  function Joined(chunks: seq<seq<byte>>): seq<byte> {
    if chunks == [] then [] else Joined(chunks[..|chunks| - 1]) + chunks[|chunks| - 1]
  }

  lemma SliceSplits(file: seq<byte>, a: nat, b: nat, c: nat)
    requires a <= b <= c <= |file|
    ensures file[a..b] + file[b..c] == file[a..c]
  {
  }

  lemma JoinedLast(chunks: seq<seq<byte>>, chunk: seq<byte>)
    ensures Joined(chunks + [chunk]) == Joined(chunks) + chunk
  {
    assert (chunks + [chunk])[..|chunks|] == chunks;
  }

  lemma JoinedNone()
    ensures Joined([]) == []
  {
  }

  lemma JoinedMore(chunks: seq<seq<byte>>, chunk: seq<byte>, file: seq<byte>, start: nat, position: nat)
    requires start <= position && position + |chunk| <= |file| && chunk == file[position..position + |chunk|]
    requires Joined(chunks) == file[start..position]
    ensures Joined(chunks + [chunk]) == file[start..position + |chunk|]
  {
    hide Joined;
    JoinedLast(chunks, chunk);
    SliceSplits(file, start, position, position + |chunk|);
  }

  /** stream_file_region: `readUpTo` is how much each read returns at most. The file may be too short. */
  method StreamFileRegion(file: seq<byte>, start: nat, length: nat, chunkSize: nat, readUpTo: seq<nat>)
    returns (chunks: seq<seq<byte>>, ok: bool)
    requires start <= |file|
    ensures forall c <- chunks :: 0 < |c| <= chunkSize
    ensures Joined(chunks) <= file[start..]
    ensures ok <==> length == 0 || (chunkSize > 0 && start + length <= |file|)
    ensures ok ==> Joined(chunks) == file[start..start + length]
  {
    hide Joined;
    chunks := [];
    assert Joined(chunks) == [] by { JoinedNone(); }
    var remaining, position, turn := length, start, 0;
    while remaining > 0
      invariant 0 <= remaining <= length && position == start + length - remaining <= |file| && 0 <= turn
      invariant Joined(chunks) == file[start..position]
      invariant forall c <- chunks :: 0 < |c| <= chunkSize
      invariant remaining < length ==> chunkSize > 0
      decreases remaining
    {
      var want := if chunkSize < remaining then chunkSize else remaining;
      // a read returns at least one byte unless none is wanted or left
      var most := if turn < |readUpTo| && readUpTo[turn] > 0 then readUpTo[turn] else want;
      var have := |file| - position;
      var n := if want < have then want else have;
      n := if most < n then most else n;
      turn := turn + 1;
      var chunk := file[position..position + n];
      if chunk == [] {
        ok := false;
        return;
      }
      remaining := remaining - n;
      JoinedMore(chunks, chunk, file, start, position);
      chunks := chunks + [chunk];
      position := position + n;
    }
    ok := true;
  }

  /** A resumed transfer: the request for `p-`, the server's selection, its header, and its chunks. */
  method Resume(file: seq<byte>, p: nat, limits: Limits, chunkSize: nat, readUpTo: seq<nat>) returns (chunks: seq<seq<byte>>)
    requires 0 < p < |file| <= INT64_MAX && Room(p, limits) && chunkSize > 0
    ensures Response(p, |file|, 206, Some(ContentRange(p, |file| - 1, |file|))) == Append
    ensures file[..p] + Joined(chunks) == file
  {
    hide ParseSingleRange, Response, ContentRange, RangeHeader;
    EndsAgree(p, |file|, limits);
    var selection, ok := ParseSingleRange(RangeHeader(p), |file|, limits), true;
    chunks, ok := StreamFileRegion(file, selection.start, selection.end - selection.start + 1, chunkSize, readUpTo);
  }
}
