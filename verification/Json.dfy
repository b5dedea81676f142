/**
 The JSON texts the OTA agent accepts (manifest.c, load_json's lexical guard), as concrete syntax
 trees of RFC 8259, and a recursive reading of the recogniser. Reading and writing undo each other.
 */
module Json {
  import opened Bytes
  import opened Wrappers
  import Decimal
  import Utf8

  const MAX_DEPTH := 64

  // ---------------------------------------------------------------- characters

  /** ws of RFC 8259 section 2. A NUL, which the C code would also skip, is not in any text it scans. */
  predicate Space(b: byte) {
    b == 0x20 || b == 0x09 || b == 0x0A || b == 0x0D
  }

  predicate AllSpace(s: seq<byte>) {
    forall b <- s :: Space(b)
  }

  predicate Digit(b: byte) {
    0x30 <= b <= 0x39
  }

  predicate AllDigits(s: seq<byte>) {
    forall b <- s :: Digit(b)
  }

  function HexValue(b: byte): nat
    requires HexDigit(b)
  {
    if Digit(b) then b as int - 0x30 else if b <= 0x46 then b as int - 0x41 + 10 else b as int - 0x61 + 10
  }

  /** The digits of section 7 of RFC 8259, in either case. */
  lemma HexValueIsPlace(b: byte)
    requires HexDigit(b)
    ensures HexValue(b) < 16
    ensures b == "0123456789abcdef"[HexValue(b)] as int || b == "0123456789ABCDEF"[HexValue(b)] as int
  {
  }

  predicate FourHex(h: seq<byte>) {
    |h| == 4 && HexDigit(h[0]) && HexDigit(h[1]) && HexDigit(h[2]) && HexDigit(h[3])
  }

  function Code(h: seq<byte>): (u: nat)
    requires FourHex(h)
    ensures u < 0x1_0000
  {
    ((HexValue(h[0]) * 16 + HexValue(h[1])) * 16 + HexValue(h[2])) * 16 + HexValue(h[3])
  }

  predicate High(u: nat) { 0xD800 <= u <= 0xDBFF }

  predicate Low(u: nat) { 0xDC00 <= u <= 0xDFFF }

  // ---------------------------------------------------------------- strings

  /** One character of a string as it is written. */
  datatype Piece = Raw(b: byte) | Escape(b: byte) | Unicode(hex: seq<byte>) | Pair(high: seq<byte>, low: seq<byte>)

  const QUOTE: byte := 0x22
  const BACKSLASH: byte := 0x5C
  const SMALL_U: byte := 0x75
  const ESCAPES: seq<byte> := [0x22, 0x5C, 0x2F, 0x62, 0x66, 0x6E, 0x72, 0x74]
  const ESCAPED: seq<byte> := [0x22, 0x5C, 0x2F, 0x08, 0x0C, 0x0A, 0x0D, 0x09]

  predicate LegalPiece(p: Piece) {
    match p
    case Raw(b) => b >= 0x20 && b != QUOTE && b != BACKSLASH
    case Escape(b) => b in ESCAPES
    case Unicode(h) => FourHex(h) && !High(Code(h)) && !Low(Code(h))
    case Pair(h, l) => FourHex(h) && FourHex(l) && High(Code(h)) && Low(Code(l))
  }

  function PieceText(p: Piece): seq<byte> {
    match p
    case Raw(b) => [b]
    case Escape(b) => [BACKSLASH, b]
    case Unicode(h) => [BACKSLASH, SMALL_U] + h
    case Pair(h, l) => [BACKSLASH, SMALL_U] + h + [BACKSLASH, SMALL_U] + l
  }

  function IndexIn(b: byte, s: seq<byte>): (i: nat)
    requires b in s
    ensures i < |s| && s[i] == b
  {
    if s[0] == b then 0 else 1 + IndexIn(b, s[1..])
  }

  function PieceValue(p: Piece): seq<byte>
    requires LegalPiece(p)
  {
    match p
    case Raw(b) => [b]
    case Escape(b) => [ESCAPED[IndexIn(b, ESCAPES)]]
    case Unicode(h) => Utf8.Encoded(Code(h))
    case Pair(h, l) => Utf8.Encoded(0x1_0000 + (Code(h) - 0xD800) * 0x400 + Code(l) - 0xDC00)
  }

  /** The escape of the character NUL. */
  predicate IsNul(p: Piece) {
    p.Unicode? && FourHex(p.hex) && Code(p.hex) == 0
  }

  predicate LegalPieces(ps: seq<Piece>) {
    forall p <- ps :: LegalPiece(p)
  }

  function Text(ps: seq<Piece>): seq<byte> {
    if ps == [] then [] else PieceText(ps[0]) + Text(ps[1..])
  }

  /** The decoded string. */
  function Decoded(ps: seq<Piece>): seq<byte>
    requires LegalPieces(ps)
  {
    if ps == [] then [] else PieceValue(ps[0]) + Decoded(ps[1..])
  }

  predicate HasNul(ps: seq<Piece>) {
    exists p <- ps :: IsNul(p)
  }

  datatype Taken<T> = Taken(item: T, rest: seq<byte>)

  /** One character at the front of `s`, if there is a legal one; not the closing quote. */
  function TakePiece(s: seq<byte>): (r: Option<Taken<Piece>>)
    ensures r.Some? ==> |r.value.rest| < |s|
  {
    if s == [] || s[0] == QUOTE || s[0] < 0x20 then None
    else if s[0] != BACKSLASH then Some(Taken(Raw(s[0]), s[1..]))
    else if |s| < 2 then None
    else if s[1] != SMALL_U then
      if s[1] in ESCAPES then Some(Taken(Escape(s[1]), s[2..])) else None
    else if |s| < 6 || !FourHex(s[2..6]) || Low(Code(s[2..6])) then None
    else if !High(Code(s[2..6])) then Some(Taken(Unicode(s[2..6]), s[6..]))
    else if |s| < 12 || s[6] != BACKSLASH || s[7] != SMALL_U || !FourHex(s[8..12]) || !Low(Code(s[8..12])) then None
    else Some(Taken(Pair(s[2..6], s[8..12]), s[12..]))
  }

  /** The characters up to and including the closing quote. */
  function TakePieces(s: seq<byte>): (r: Option<Taken<seq<Piece>>>)
    ensures r.Some? ==> |r.value.rest| < |s|
    decreases |s|
  {
    if s != [] && s[0] == QUOTE then Some(Taken([], s[1..]))
    else
      var first := TakePiece(s);
      if first.None? then None
      else
        var more := TakePieces(first.value.rest);
        if more.None? then None else Some(Taken([first.value.item] + more.value.item, more.value.rest))
  }

  lemma PieceSound(s: seq<byte>)
    requires TakePiece(s).Some?
    ensures LegalPiece(TakePiece(s).value.item)
    ensures s == PieceText(TakePiece(s).value.item) + TakePiece(s).value.rest
  {
  }

  lemma PieceComplete(p: Piece, rest: seq<byte>)
    requires LegalPiece(p)
    ensures TakePiece(PieceText(p) + rest) == Some(Taken(p, rest))
    ensures |PieceText(p)| > 0 && PieceText(p)[0] != QUOTE
  {
    var s := PieceText(p) + rest;
    match p
    case Raw(b) => assert s[1..] == rest;
    case Escape(b) => assert s[2..] == rest;
    case Unicode(h) => assert s[2..6] == h && s[6..] == rest;
    case Pair(h, l) =>
      assert s[2..6] == h && s[8..12] == l && s[12..] == rest;
      assert s[6] == BACKSLASH && s[7] == SMALL_U;
  }

  lemma {:induction false} PiecesSound(s: seq<byte>)
    requires TakePieces(s).Some?
    ensures var r := TakePieces(s).value; LegalPieces(r.item) && s == Text(r.item) + [QUOTE] + r.rest
    decreases |s|
  {
    hide TakePiece, PieceText, LegalPiece;
    if s != [] && s[0] == QUOTE {
      assert s == [QUOTE] + s[1..];
    } else {
      var first := TakePiece(s).value;
      PieceSound(s);
      PiecesSound(first.rest);
      var more := TakePieces(first.rest).value;
      assert ([first.item] + more.item)[1..] == more.item;
      assert s == PieceText(first.item) + (Text(more.item) + [QUOTE] + more.rest);
    }
  }

  lemma {:induction false} PiecesComplete(ps: seq<Piece>, rest: seq<byte>)
    requires LegalPieces(ps)
    ensures TakePieces(Text(ps) + [QUOTE] + rest) == Some(Taken(ps, rest))
  {
    hide TakePiece, PieceText, LegalPiece;
    var s := Text(ps) + [QUOTE] + rest;
    if ps == [] {
      assert s[1..] == rest;
    } else {
      var tail := Text(ps[1..]) + [QUOTE] + rest;
      assert s == PieceText(ps[0]) + tail;
      assert ps[0] in ps;
      PieceComplete(ps[0], tail);
      PiecesComplete(ps[1..], rest);
      assert ps == [ps[0]] + ps[1..];
    }
  }

  // ---------------------------------------------------------------- numbers

  datatype Exponent = Exponent(mark: byte, sign: seq<byte>, digits: seq<byte>)

  datatype Number = Number(minus: bool, whole: seq<byte>, fraction: Option<seq<byte>>, exponent: Option<Exponent>)

  predicate Digits1(s: seq<byte>) {
    s != [] && AllDigits(s)
  }

  predicate LegalExponent(e: Exponent) {
    (e.mark == 0x65 || e.mark == 0x45) && (e.sign == [] || e.sign == [0x2B] || e.sign == [0x2D]) && Digits1(e.digits)
  }

  /** RFC 8259 section 6. */
  predicate LegalNumber(n: Number) {
    && Digits1(n.whole) && (n.whole[0] == 0x30 ==> |n.whole| == 1)
    && (n.fraction.Some? ==> Digits1(n.fraction.value))
    && (n.exponent.Some? ==> LegalExponent(n.exponent.value))
  }

  function FractionText(f: Option<seq<byte>>): seq<byte> {
    if f.Some? then [0x2E] + f.value else []
  }

  function ExponentText(e: Option<Exponent>): seq<byte> {
    if e.Some? then [e.value.mark] + e.value.sign + e.value.digits else []
  }

  function NumberText(n: Number): seq<byte> {
    (if n.minus then [0x2D] else []) + (n.whole + (FractionText(n.fraction) + ExponentText(n.exponent)))
  }

  function DigitRun(s: seq<byte>): (n: nat)
    ensures n <= |s| && AllDigits(s[..n]) && (n < |s| ==> !Digit(s[n]))
  {
    if s == [] || !Digit(s[0]) then 0
    else
      var n := DigitRun(s[1..]);
      assert s[..n + 1] == [s[0]] + s[1..][..n];
      n + 1
  }

  lemma {:induction false} RunOf(digits: seq<byte>, rest: seq<byte>)
    requires AllDigits(digits) && (rest == [] || !Digit(rest[0]))
    ensures DigitRun(digits + rest) == |digits|
  {
    if digits == [] {
      assert digits + rest == rest;
    } else {
      assert digits[0] in digits;
      RunOf(digits[1..], rest);
      assert (digits + rest)[1..] == digits[1..] + rest;
    }
  }

  /** A run of at least one digit. */
  function TakeDigits(s: seq<byte>): (r: Option<Taken<seq<byte>>>)
    ensures r.Some? ==> |r.value.rest| < |s|
  {
    if DigitRun(s) == 0 then None else Some(Taken(s[..DigitRun(s)], s[DigitRun(s)..]))
  }

  /** A single zero, or a run of digits. */
  function TakeWhole(s: seq<byte>): (r: Option<Taken<seq<byte>>>)
    ensures r.Some? ==> |r.value.rest| < |s|
  {
    if s != [] && s[0] == 0x30 then Some(Taken([s[0]], s[1..])) else TakeDigits(s)
  }

  function TakeFraction(s: seq<byte>): (r: Option<Taken<Option<seq<byte>>>>)
    ensures r.Some? ==> |r.value.rest| <= |s|
  {
    if s == [] || s[0] != 0x2E then Some(Taken(None, s))
    else
      var d := TakeDigits(s[1..]);
      if d.None? then None else Some(Taken(Some(d.value.item), d.value.rest))
  }

  function TakeExponent(s: seq<byte>): (r: Option<Taken<Option<Exponent>>>)
    ensures r.Some? ==> |r.value.rest| <= |s|
  {
    if s == [] || (s[0] != 0x65 && s[0] != 0x45) then Some(Taken(None, s))
    else
      var signed := |s| > 1 && (s[1] == 0x2B || s[1] == 0x2D);
      var d := TakeDigits(if signed then s[2..] else s[1..]);
      if d.None? then None
      else Some(Taken(Some(Exponent(s[0], if signed then [s[1]] else [], d.value.item)), d.value.rest))
  }

  function TakeNumber(s: seq<byte>): (r: Option<Taken<Number>>)
    ensures r.Some? ==> |r.value.rest| < |s|
  {
    var minus := s != [] && s[0] == 0x2D;
    var whole := TakeWhole(if minus then s[1..] else s);
    if whole.None? then None
    else
      var fraction := TakeFraction(whole.value.rest);
      if fraction.None? then None
      else
        var exponent := TakeExponent(fraction.value.rest);
        if exponent.None? then None
        else Some(Taken(Number(minus, whole.value.item, fraction.value.item, exponent.value.item), exponent.value.rest))
  }

  /** What may come after a value: nothing, white space, a comma or a closing bracket. */
  predicate Follows(rest: seq<byte>) {
    rest == [] || Space(rest[0]) || rest[0] == 0x2C || rest[0] == 0x7D || rest[0] == 0x5D
  }

  lemma DigitsSound(s: seq<byte>)
    requires TakeDigits(s).Some?
    ensures var r := TakeDigits(s).value; Digits1(r.item) && s == r.item + r.rest
  {
  }

  lemma WholeSound(s: seq<byte>)
    requires TakeWhole(s).Some?
    ensures var r := TakeWhole(s).value; Digits1(r.item) && (r.item[0] == 0x30 ==> |r.item| == 1) && s == r.item + r.rest
  {
    if s[0] == 0x30 {
    } else {
      DigitsSound(s);
    }
  }

  lemma FractionSound(s: seq<byte>)
    requires TakeFraction(s).Some?
    ensures var r := TakeFraction(s).value; (r.item.Some? ==> Digits1(r.item.value)) && s == FractionText(r.item) + r.rest
  {
    hide TakeDigits, Digits1;
    if s != [] && s[0] == 0x2E {
      DigitsSound(s[1..]);
    }
  }

  lemma ExponentSound(s: seq<byte>)
    requires TakeExponent(s).Some?
    ensures var r := TakeExponent(s).value; (r.item.Some? ==> LegalExponent(r.item.value)) && s == ExponentText(r.item) + r.rest
  {
    hide TakeDigits, Digits1;
    var r := TakeExponent(s).value;
    if r.item.Some? {
      var tail := if |s| > 1 && (s[1] == 0x2B || s[1] == 0x2D) then s[2..] else s[1..];
      DigitsSound(tail);
      assert s == [s[0]] + r.item.value.sign + tail;
    }
  }

  lemma NumberSound(s: seq<byte>)
    requires TakeNumber(s).Some?
    ensures var r := TakeNumber(s).value; LegalNumber(r.item) && s == NumberText(r.item) + r.rest
  {
    hide TakeWhole, TakeFraction, TakeExponent, Digits1, LegalExponent, FractionText, ExponentText;
    var minus := s != [] && s[0] == 0x2D;
    var t := if minus then s[1..] else s;
    WholeSound(t);
    var whole := TakeWhole(t).value;
    FractionSound(whole.rest);
    var fraction := TakeFraction(whole.rest).value;
    ExponentSound(fraction.rest);
    var exponent := TakeExponent(fraction.rest).value;
    Regroup(whole.item, FractionText(fraction.item), ExponentText(exponent.item), exponent.rest);
    Digits1First(whole.item);
    if minus {
      assert s == [0x2D] + t;
      Regroup([0x2D], whole.item, FractionText(fraction.item) + ExponentText(exponent.item), exponent.rest);
    } else {
      assert [] + (whole.item + (FractionText(fraction.item) + ExponentText(exponent.item))) ==
        whole.item + (FractionText(fraction.item) + ExponentText(exponent.item));
    }
  }

  lemma Regroup(a: seq<byte>, b: seq<byte>, c: seq<byte>, d: seq<byte>)
    ensures (a + (b + c)) + d == a + (b + (c + d))
    ensures (b + c) + d == b + (c + d)
  {
  }

  lemma Digits1First(s: seq<byte>)
    requires Digits1(s)
    ensures s != [] && Digit(s[0])
  {
  }

  lemma DigitsComplete(digits: seq<byte>, rest: seq<byte>)
    requires Digits1(digits) && (rest == [] || !Digit(rest[0]))
    ensures TakeDigits(digits + rest) == Some(Taken(digits, rest))
  {
    RunOf(digits, rest);
  }

  lemma ExponentTail(e: Exponent, rest: seq<byte>)
    requires LegalExponent(e)
    ensures var s := [e.mark] + e.sign + e.digits + rest;
      && s[0] == e.mark && |s| > 1
      && (e.sign != [] ==> s[1] == e.sign[0] && s[2..] == e.digits + rest)
      && (e.sign == [] ==> Digit(s[1]) && s[1..] == e.digits + rest)
  {
    Digits1First(e.digits);
  }

  lemma ExponentComplete(e: Option<Exponent>, rest: seq<byte>)
    requires (e.Some? ==> LegalExponent(e.value)) && Follows(rest)
    ensures var s := ExponentText(e) + rest; TakeExponent(s) == Some(Taken(e, rest)) && (s == [] || (!Digit(s[0]) && s[0] != 0x2E))
  {
    hide TakeDigits, Digits1;
    var s := ExponentText(e) + rest;
    if e.Some? {
      ExponentTail(e.value, rest);
      DigitsComplete(e.value.digits, rest);
    } else {
      assert s == rest;
    }
  }

  lemma FractionComplete(f: Option<seq<byte>>, rest: seq<byte>)
    requires (f.Some? ==> Digits1(f.value)) && (rest == [] || (!Digit(rest[0]) && rest[0] != 0x2E))
    ensures var s := FractionText(f) + rest; TakeFraction(s) == Some(Taken(f, rest)) && (s == [] || !Digit(s[0]))
  {
    hide TakeDigits, Digits1;
    var s := FractionText(f) + rest;
    if f.Some? {
      DigitsComplete(f.value, rest);
      assert s[0] == 0x2E && s[1..] == f.value + rest;
    } else {
      assert s == rest;
    }
  }

  lemma WholeComplete(w: seq<byte>, rest: seq<byte>)
    requires Digits1(w) && (w[0] == 0x30 ==> |w| == 1) && (rest == [] || !Digit(rest[0]))
    ensures TakeWhole(w + rest) == Some(Taken(w, rest))
  {
    if w[0] == 0x30 {
      assert (w + rest)[1..] == rest && w == [w[0]];
    } else {
      DigitsComplete(w, rest);
    }
  }

  lemma NumberComplete(n: Number, rest: seq<byte>)
    requires LegalNumber(n) && Follows(rest)
    ensures TakeNumber(NumberText(n) + rest) == Some(Taken(n, rest))
    ensures NumberText(n) != [] && (NumberText(n)[0] == 0x2D || Digit(NumberText(n)[0]))
  {
    hide TakeWhole, TakeFraction, TakeExponent, LegalExponent, FractionText, ExponentText, Follows;
    var s := NumberText(n) + rest;
    var tail2 := ExponentText(n.exponent) + rest;
    var tail1 := FractionText(n.fraction) + tail2;
    ExponentComplete(n.exponent, rest);
    FractionComplete(n.fraction, tail2);
    WholeComplete(n.whole, tail1);
    Digits1First(n.whole);
    assert n.whole + (FractionText(n.fraction) + ExponentText(n.exponent)) + rest == n.whole + tail1;
    if n.minus {
      assert s[1..] == n.whole + tail1;
    } else {
      assert s == n.whole + tail1;
    }
  }
}
