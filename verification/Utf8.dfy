/**
 UTF-8 by the syntax of section 4 of RFC 3629, which g_utf8_validate follows, and by the encoding of section 3:
 a text is valid exactly if it is the encoding of some characters, and then of only one sequence of them.
 */
module Utf8 {

  predicate Cont(b: int) {
    0x80 <= b <= 0xBF
  }

  /** Length of the well-formed character at the front of `s`, or 0 when there is none. */
  function Width(s: seq<int>): (w: nat)
    ensures w <= |s| && w <= 4
    ensures s == [] ==> w == 0
  {
    if s == [] then 0
    else if 0 <= s[0] < 0x80 then 1
    else if 0xC2 <= s[0] <= 0xDF then (if |s| >= 2 && Cont(s[1]) then 2 else 0)
    else if 0xE0 <= s[0] <= 0xEF then
      (if |s| >= 3 && Cont(s[1]) && Cont(s[2]) && (s[0] == 0xE0 ==> 0xA0 <= s[1]) &&
          (s[0] == 0xED ==> s[1] <= 0x9F) then 3 else 0)
    else if 0xF0 <= s[0] <= 0xF4 then
      (if |s| >= 4 && Cont(s[1]) && Cont(s[2]) && Cont(s[3]) && (s[0] == 0xF0 ==> 0x90 <= s[1]) &&
          (s[0] == 0xF4 ==> s[1] <= 0x8F) then 4 else 0)
    else 0
  }

  predicate Valid(s: seq<int>) {
    s == [] || (Width(s) > 0 && Valid(s[Width(s)..]))
  }

  // ---------------------------------------------------------------- characters and their encodings

  /** The Unicode scalar values. */
  predicate Scalar(u: nat) {
    u < 0x11_0000 && !(0xD800 <= u <= 0xDFFF)
  }

  /** The bytes of a code point; g_string_append_unichar appends them. */
  function Encoded(u: nat): (b: seq<int>)
    requires u < 0x11_0000
    ensures 1 <= |b| <= 4 && forall i :: 0 <= i < |b| ==> 0 <= b[i] < 256
  {
    if u < 0x80 then [u]
    else if u < 0x800 then [0xC0 + u / 64, 0x80 + u % 64]
    else if u < 0x1_0000 then [0xE0 + u / 64 / 64, 0x80 + u / 64 % 64, 0x80 + u % 64]
    else [0xF0 + u / 64 / 64 / 64, 0x80 + u / 64 / 64 % 64, 0x80 + u / 64 % 64, 0x80 + u % 64]
  }

  predicate Scalars(us: seq<nat>) {
    forall i :: 0 <= i < |us| ==> Scalar(us[i])
  }

  function EncodedAll(us: seq<nat>): seq<int>
    requires Scalars(us)
  {
    if us == [] then [] else Encoded(us[0]) + EncodedAll(us[1..])
  }

  /** Six more bits, from a continuation byte. */
  function Joined(high: nat, b: int): (u: nat)
    requires Cont(b)
    ensures u / 64 == high && 0x80 + u % 64 == b
  {
    high * 64 + b - 0x80
  }

  /** The character at the front. */
  function Front(s: seq<int>): (u: nat)
    requires Width(s) > 0
    ensures Scalar(u)
  {
    match Width(s)
    case 1 => s[0]
    case 2 => Joined(s[0] - 0xC0, s[1])
    case 3 => Joined(Joined(s[0] - 0xE0, s[1]), s[2])
    case _ => Joined(Joined(Joined(s[0] - 0xF0, s[1]), s[2]), s[3])
  }

  lemma EncodedFront(s: seq<int>)
    requires Width(s) > 0
    ensures Encoded(Front(s)) == s[..Width(s)]
  {
  }

  lemma FrontOfEncoded(u: nat, rest: seq<int>)
    requires Scalar(u)
    ensures Width(Encoded(u) + rest) == |Encoded(u)| && Front(Encoded(u) + rest) == u
  {
    var s := Encoded(u) + rest;
    assert s[..|Encoded(u)|] == Encoded(u);
  }

  /** Every encoding is valid. */
  lemma {:induction false} EncodedValid(us: seq<nat>)
    requires Scalars(us)
    ensures Valid(EncodedAll(us))
  {
    if us != [] {
      var rest := EncodedAll(us[1..]);
      EncodedValid(us[1..]);
      FrontOfEncoded(us[0], rest);
      assert (Encoded(us[0]) + rest)[|Encoded(us[0])|..] == rest;
    }
  }

  /** Every valid text is an encoding. */
  lemma {:induction false} ValidEncoded(s: seq<int>) returns (us: seq<nat>)
    requires Valid(s)
    ensures Scalars(us) && EncodedAll(us) == s
  {
    hide Encoded, Width, Front;
    us := [];
    if s != [] {
      var w := Width(s);
      var later := ValidEncoded(s[w..]);
      EncodedFront(s);
      us := [Front(s)] + later;
      assert us[1..] == later && s == s[..w] + s[w..];
    }
  }

  lemma ValidExactly(s: seq<int>)
    ensures Valid(s) <==> exists us :: Scalars(us) && EncodedAll(us) == s
  {
    if Valid(s) {
      var us := ValidEncoded(s);
    }
    forall us | Scalars(us) && EncodedAll(us) == s ensures Valid(s) {
      EncodedValid(us);
    }
  }

  lemma {:induction false} OneDecoding(us: seq<nat>, vs: seq<nat>)
    requires Scalars(us) && Scalars(vs) && EncodedAll(us) == EncodedAll(vs)
    ensures us == vs
  {
    if us != [] && vs != [] {
      var r, t := EncodedAll(us[1..]), EncodedAll(vs[1..]);
      FrontOfEncoded(us[0], r);
      FrontOfEncoded(vs[0], t);
      var w := |Encoded(us[0])|;
      assert (Encoded(us[0]) + r)[w..] == r && (Encoded(vs[0]) + t)[w..] == t;
      OneDecoding(us[1..], vs[1..]);
      assert us == [us[0]] + us[1..] && vs == [vs[0]] + vs[1..];
    }
  }

  /** The bytes of a C string held as a Dafny string, one character per byte. */
  function Codes(s: string): (c: seq<int>)
    ensures |c| == |s|
    ensures forall i :: 0 <= i < |s| ==> c[i] == s[i] as int
  {
    seq(|s|, i requires 0 <= i < |s| => s[i] as int)
  }
}
