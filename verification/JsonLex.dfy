/** The scanner itself (manifest.c): a cursor and a depth, moved by mutually recursive token methods. */
module JsonLex {
  import opened Bytes
  import opened Wrappers
  import opened Json
  import opened JsonText
  import opened JsonProofs
  import Decimal
  import Utf8

  /** The value of hexadecimal digits read one by one. */
  function HexNumber(h: seq<byte>): nat
    requires forall b <- h :: HexDigit(b)
  {
    if h == [] then 0
    else
      assert h[|h| - 1] in h;
      HexNumber(h[..|h| - 1]) * 16 + HexValue(h[|h| - 1])
  }

  lemma FourDigits(h: seq<byte>)
    requires FourHex(h)
    ensures (forall b <- h :: HexDigit(b)) && HexNumber(h) == Code(h)
  {
    assert h[..3][..2] == h[..2] && h[..2][..1] == h[..1] && h[..1][..0] == [];
    assert h[..1] == [h[0]];
    assert HexNumber(h[..1]) == HexValue(h[0]);
    assert HexNumber(h[..2]) == HexNumber(h[..1]) * 16 + HexValue(h[1]);
    assert HexNumber(h[..3]) == HexNumber(h[..2]) * 16 + HexValue(h[2]);
  }

  /** What is left of a string still to be read after the characters `done`. */
  ghost predicate Pending(start: seq<byte>, done: seq<Piece>, rest: seq<byte>) {
    var t := TakePieces(rest);
    TakePieces(start) == if t.None? then None else Some(Taken(done + t.value.item, t.value.rest))
  }

  lemma PendingMore(start: seq<byte>, done: seq<Piece>, rest: seq<byte>)
    requires Pending(start, done, rest) && (rest == [] || rest[0] != QUOTE)
    ensures TakePiece(rest).None? ==> TakePieces(start).None?
    ensures TakePiece(rest).Some? ==> Pending(start, done + [TakePiece(rest).value.item], TakePiece(rest).value.rest)
  {
    hide TakePiece;
    if TakePiece(rest).Some? {
      var t := TakePieces(TakePiece(rest).value.rest);
      if t.Some? {
        assert done + ([TakePiece(rest).value.item] + t.value.item) == done + [TakePiece(rest).value.item] + t.value.item;
      }
    }
  }

  lemma {:induction false} DecodedMore(done: seq<Piece>, p: Piece)
    requires LegalPieces(done) && LegalPiece(p)
    ensures LegalPieces(done + [p]) && Decoded(done + [p]) == Decoded(done) + PieceValue(p)
    ensures HasNul(done + [p]) <==> HasNul(done) || IsNul(p)
  {
    hide PieceValue, LegalPiece, IsNul;
    var all := done + [p];
    assert all[|done|] == p;
    if done == [] {
      assert all == [p] && all[1..] == [];
    } else {
      assert done[0] in done;
      DecodedMore(done[1..], p);
      assert all[1..] == done[1..] + [p];
    }
    assert forall x <- all :: x in done || x == p;
    assert forall x <- done :: x in all;
  }

  /** All characters are digits and their number is at most INT64_MAX. */
  predicate Int64Text(s: seq<byte>) {
    AllDigits(s) && Amount(s) <= Decimal.INT64_MAX
  }

  lemma {:induction false} AmountGrows(s: seq<byte>, n: nat)
    requires AllDigits(s) && n <= |s|
    ensures AllDigits(s[..n]) && Amount(s[..n]) <= Amount(s)
  {
    if n < |s| {
      assert s[|s| - 1] in s;
      AmountGrows(s[..|s| - 1], n);
      assert s[..|s| - 1][..n] == s[..n];
    } else {
      assert s[..n] == s;
    }
  }

  /** The digits of a number are plain exactly when every character of its text is a digit. */
  lemma PlainText(n: Number)
    requires LegalNumber(n)
    ensures Int64Text(NumberText(n)) <==> PlainInt64(n)
  {
    var s := NumberText(n);
    if n.minus {
      assert s[0] == 0x2D && s[0] in s;
    } else if n.fraction.Some? {
      assert s[|n.whole|] == 0x2E && s[|n.whole|] in s;
    } else if n.exponent.Some? {
      assert s[|n.whole|] == n.exponent.value.mark && s[|n.whole|] in s;
    } else {
      assert s == n.whole;
    }
  }

  /** The overflow-guarded loop over a root number's text. */
  method CheckInt64(s: seq<byte>) returns (ok: bool)
    ensures ok <==> Int64Text(s)
  {
    var n: nat := 0;
    var i := 0;
    while i < |s|
      invariant 0 <= i <= |s| && AllDigits(s[..i]) && n == Amount(s[..i]) <= Decimal.INT64_MAX
    {
      if !Digit(s[i]) {
        assert s[i] in s;
        return false;
      }
      var d := s[i] as int - 0x30;
      assert s[..i + 1][..i] == s[..i];
      assert forall b <- s[..i + 1] :: b in s[..i] || b == s[i];
      if n > (Decimal.INT64_MAX - d) / 10 {
        if AllDigits(s) {
          AmountGrows(s, i + 1);
        }
        return false;
      }
      n := n * 10 + d;
      i := i + 1;
    }
    assert s[..|s|] == s;
    ok := true;
  }

  class Lex {
    const text: seq<byte>
    var p: nat
    var depth: nat

    ghost predicate Valid()
      reads this
    {
      p <= |text|
    }

    ghost function Rest(): seq<byte>
      reads this
      requires Valid()
    {
      text[p..]
    }

    constructor (text: seq<byte>)
      ensures Valid() && this.text == text && Rest() == text && depth == 0
    {
      this.text, p, depth := text, 0, 0;
    }

    method Ws()
      requires Valid()
      modifies this`p
      ensures Valid() && old(p) <= p && Rest() == Skip(old(Rest()))
    {
      while p < |text| && Space(text[p])
        invariant old(p) <= p <= |text| && Skip(text[p..]) == Skip(old(text[p..]))
      {
        assert text[p..][1..] == text[p + 1..];
        p := p + 1;
      }
    }

    method Hex4() returns (ok: bool, u: nat)
      requires Valid()
      modifies this`p
      ensures Valid() && old(p) <= p
      ensures ok <==> old(p) + 4 <= |text| && FourHex(text[old(p)..old(p) + 4])
      ensures ok ==> p == old(p) + 4 && u == Code(text[old(p)..old(p) + 4])
    {
      hide Code, HexValue;
      u := 0;
      ghost var start := p;
      var i: nat := 0;
      while i < 4
        invariant i <= 4 && p == start + i <= |text|
        invariant (forall b <- text[start..p] :: HexDigit(b)) && u == HexNumber(text[start..p])
      {
        if p == |text| || !HexDigit(text[p]) {
          assert start + 4 <= |text| ==> text[start..start + 4][i] == text[p];
          return false, u;
        }
        assert text[start..p + 1][..i] == text[start..p];
        assert forall b <- text[start..p + 1] :: b in text[start..p] || b == text[p];
        u := u * 16 + HexValue(text[p]);
        p, i := p + 1, i + 1;
      }
      ok := true;
      ghost var h := text[start..p];
      assert h[0] in h && h[1] in h && h[2] in h && h[3] in h;
      FourDigits(h);
    }

    /** The body of string_token's loop for a character that is not the closing quote. */
    method Character() returns (ok: bool, bytes: seq<byte>, nul: bool)
      requires Valid() && p < |text| && text[p] != QUOTE
      modifies this`p
      ensures Valid() && old(p) < p
      ensures ok <==> TakePiece(old(Rest())).Some?
      ensures ok ==> var t := TakePiece(old(Rest())).value;
        LegalPiece(t.item) && Rest() == t.rest && bytes == PieceValue(t.item) && (nul <==> IsNul(t.item))
    {
      hide FourHex, Code, Utf8.Encoded, IndexIn;
      ghost var s := Rest();
      bytes, nul := [], false;
      var c := text[p];
      p := p + 1;
      if c < 0x20 {
        return false, [], false;
      }
      if c != BACKSLASH {
        return true, [c], false;
      }
      if p == |text| {
        return false, [], false;
      }
      c := text[p];
      p := p + 1;
      if c == SMALL_U {
        var u;
        ok, u := Hex4();
        assert |s| >= 6 ==> s[2..6] == text[old(p) + 2..old(p) + 6];
        if !ok {
          return;
        }
        if High(u) {
          if |text| - p < 6 || text[p] != BACKSLASH || text[p + 1] != SMALL_U {
            return false, [], false;
          }
          p := p + 2;
          var low;
          ok, low := Hex4();
          assert |s| >= 12 ==> s[8..12] == text[old(p) + 8..old(p) + 12];
          if !ok || !Low(low) {
            return false, [], false;
          }
          u := 0x1_0000 + (u - 0xD800) * 0x400 + low - 0xDC00;
        } else if Low(u) {
          return false, [], false;
        }
        nul := u == 0;
        bytes := Utf8.Encoded(u);
      } else {
        if c !in ESCAPES {
          return false, [], false;
        }
        ok := true;
        bytes := [ESCAPED[IndexIn(c, ESCAPES)]];
      }
    }

    /** string_token */
    method StringToken() returns (ok: bool, decoded: seq<byte>, nul: bool)
      requires Valid()
      modifies this`p
      ensures Valid() && old(p) <= p && (ok ==> old(p) < p)
      ensures ok <==> TakeString(old(Rest())).Some?
      ensures ok ==> var t := TakeString(old(Rest())).value;
        LegalPieces(t.item) && Rest() == t.rest && decoded == Decoded(t.item) && (nul <==> HasNul(t.item))
    {
      hide TakePiece, TakePieces, LegalPieces, LegalPiece, Decoded, HasNul, PieceValue, IsNul;
      decoded, nul := [], false;
      if p == |text| || text[p] != QUOTE {
        ok := false;
        return;
      }
      p := p + 1;
      ghost var start, done: seq<Piece> := Rest(), [];
      StartPending(start);
      assert old(Rest())[1..] == start;
      while p < |text|
        invariant old(p) < p <= |text| && Pending(start, done, Rest())
        invariant LegalPieces(done) && decoded == Decoded(done) && (nul <==> HasNul(done))
        decreases |text| - p
      {
        if text[p] == QUOTE {
          PendingEnds(start, done, Rest());
          p := p + 1;
          ok := true;
          return;
        }
        PendingMore(start, done, Rest());
        ghost var piece := TakePiece(Rest());
        var bytes, isNul;
        ok, bytes, isNul := Character();
        if !ok {
          return;
        }
        DecodedMore(done, piece.value.item);
        done := done + [piece.value.item];
        decoded := decoded + bytes;
        nul := nul || isNul;
      }
      PendingOpen(start, done);
      ok := false;
    }

    /** The inner digit loops. */
    method Digits()
      requires Valid()
      modifies this`p
      ensures Valid() && p == old(p) + DigitRun(old(Rest()))
    {
      ghost var s := Rest();
      while p < |text| && Digit(text[p])
        invariant old(p) <= p <= |text| && DigitRun(s) == p - old(p) + DigitRun(text[p..])
      {
        assert text[p..][1..] == text[p + 1..];
        p := p + 1;
      }
    }

    /** At least one digit. */
    method SomeDigits() returns (ok: bool)
      requires Valid()
      modifies this`p
      ensures Valid() && old(p) <= p
      ensures ok <==> TakeDigits(old(Rest())).Some?
      ensures ok ==> Rest() == TakeDigits(old(Rest())).value.rest
    {
      ok := p < |text| && Digit(text[p]);
      if ok {
        Digits();
      }
    }

    /** value_token's number, without the check of its size. */
    method NumberToken() returns (ok: bool)
      requires Valid()
      modifies this`p
      ensures Valid() && old(p) <= p
      ensures ok <==> TakeNumber(old(Rest())).Some?
      ensures ok ==> Rest() == TakeNumber(old(Rest())).value.rest
    {
      hide TakeDigits, TakeWhole, TakeFraction, TakeExponent;
      if p < |text| && text[p] == 0x2D {
        p := p + 1;
      }
      ok := WholeToken();
      if !ok {
        return;
      }
      ok := FractionToken();
      if !ok {
        return;
      }
      ok := ExponentToken();
    }

    method WholeToken() returns (ok: bool)
      requires Valid()
      modifies this`p
      ensures Valid() && old(p) <= p
      ensures ok <==> TakeWhole(old(Rest())).Some?
      ensures ok ==> Rest() == TakeWhole(old(Rest())).value.rest
    {
      hide TakeDigits;
      if p < |text| && text[p] == 0x30 {
        p := p + 1;
        ok := true;
      } else {
        ok := SomeDigits();
      }
    }

    method FractionToken() returns (ok: bool)
      requires Valid()
      modifies this`p
      ensures Valid() && old(p) <= p
      ensures ok <==> TakeFraction(old(Rest())).Some?
      ensures ok ==> Rest() == TakeFraction(old(Rest())).value.rest
    {
      hide TakeDigits;
      ok := true;
      if p < |text| && text[p] == 0x2E {
        p := p + 1;
        ok := SomeDigits();
      }
    }

    method ExponentToken() returns (ok: bool)
      requires Valid()
      modifies this`p
      ensures Valid() && old(p) <= p
      ensures ok <==> TakeExponent(old(Rest())).Some?
      ensures ok ==> Rest() == TakeExponent(old(Rest())).value.rest
    {
      hide TakeDigits;
      ok := true;
      if p < |text| && (text[p] == 0x65 || text[p] == 0x45) {
        p := p + 1;
        if p < |text| && (text[p] == 0x2B || text[p] == 0x2D) {
          p := p + 1;
        }
        ok := SomeDigits();
      }
    }

    /** The words, tried in order. */
    method WordToken() returns (ok: bool)
      requires Valid()
      modifies this`p
      ensures Valid() && old(p) <= p
      ensures ok <==> TakeWord(old(Rest())).Some?
      ensures ok ==> Rest() == TakeWord(old(Rest())).value.rest
      ensures !ok ==> p == old(p)
    {
      ghost var s := Rest();
      ok := false;
      var i := 0;
      while i < 3
        invariant 0 <= i <= 3 && p == old(p) && Rest() == s
        invariant forall j :: 0 <= j < i ==> !StartsWith(s, WORDS[j])
      {
        var n := |WORDS[i]|;
        if |text| - p >= n && text[p..p + n] == WORDS[i] {
          assert s[..n] == WORDS[i] && s[n..] == text[p + n..];
          p := p + n;
          ok := true;
          return;
        }
        assert |s| >= n ==> s[..n] == text[p..p + n];
        i := i + 1;
      }
    }

    /** value_token after its white space, for anything but a container. */
    method ScalarToken(rootKey: Option<seq<byte>>) returns (ok: bool)
      requires Valid()
      modifies this`p
      ensures Valid() && old(p) <= p
      ensures ok <==> TakeScalar(old(Rest()), rootKey).Some?
      ensures ok ==> Rest() == TakeScalar(old(Rest()), rootKey).value.rest
    {
      hide TakeString, TakeNumber, TakeWord, HasNul, LegalPieces, KnownString, PlainInt64, Decoded, LegalNumber, NumberText;
      ghost var s := Rest();
      if p < |text| && text[p] == QUOTE {
        var decoded, nul;
        ok, decoded, nul := StringToken();
        ok := ok && !(nul && KnownString(rootKey));
        return;
      }
      ok := WordToken();
      if ok {
        return;
      }
      var start := p;
      ok := NumberToken();
      if ok && Counted(rootKey) {
        NumberSound(s);
        ghost var n := TakeNumber(s).value;
        TextBefore(s, start, n.item);
        ok := CheckInt64(text[start..p]);
        PlainText(n.item);
      }
    }

    /** The key of an object's member, in a container_token turn; arrays have none. */
    method KeyToken(braces: bool, keys: set<seq<byte>>) returns (ok: bool, name: seq<byte>)
      requires Valid()
      modifies this`p
      ensures Valid() && old(p) <= p
      ensures ok <==> TakeKey(old(Rest()), braces, keys).Some?
      ensures ok ==> var k := TakeKey(old(Rest()), braces, keys).value; Rest() == k.rest && name == KeyName(k.item, braces)
    {
      hide TakeString, HasNul, LegalPieces, Decoded, Skip;
      ok, name := true, [];
      if braces {
        var nul;
        ok, name, nul := StringToken();
        if !ok || nul || name in keys {
          ok := false;
          return;
        }
        Ws();
        if p == |text| || text[p] != COLON {
          ok := false;
          return;
        }
        p := p + 1;
      }
    }

    /** One turn of container_token's loop up to its comma or bracket. */
    method MemberToken(braces: bool, keys: set<seq<byte>>) returns (ok: bool, name: seq<byte>)
      requires Valid() && depth <= MAX_DEPTH
      modifies this`p, this`depth
      ensures Valid() && old(p) <= p
      ensures ok <==> TakeHead(old(Rest()), braces, old(depth), keys).Some?
      ensures ok ==> old(p) < p && depth == old(depth)
      ensures ok ==> var h := TakeHead(old(Rest()), braces, old(depth), keys).value; Rest() == h.rest && name == KeyOf(h.item, braces)
      decreases |text| - p, 2
    {
      hide TakeKey, TakeValue, Skip, Decoded, LegalPieces, KeyOf;
      ok, name := KeyToken(braces, keys);
      if !ok {
        return;
      }
      HeadName(Rest(), old(Rest()), braces, depth, keys);
      ok := ValueToken(RootKey(braces, depth, name));
      if !ok {
        return;
      }
      Ws();
    }

    /** container_token */
    method ContainerToken(braces: bool) returns (ok: bool)
      requires Valid() && p < |text| && text[p] == Opening(braces) && depth <= MAX_DEPTH
      modifies this`p, this`depth
      ensures Valid() && old(p) <= p
      ensures ok <==> TakeContainer(old(Rest()), braces, old(depth)).Some?
      ensures ok ==> old(p) < p && depth == old(depth) && Rest() == TakeContainer(old(Rest()), braces, old(depth)).value.rest
      decreases |text| - p, 0
    {
      hide TakeMembers, Skip, Gap;
      depth := depth + 1;
      if depth > MAX_DEPTH {
        return false;
      }
      p := p + 1;
      assert text[p..] == old(Rest())[1..];
      Ws();
      if p < |text| && text[p] == Closing(braces) {
        p := p + 1;
        depth := depth - 1;
        return true;
      }
      ok := MemberLoop(braces);
      if ok {
        depth := depth - 1;
      }
    }

    /** Its loop. The names met so far are in a hash table. */
    method MemberLoop(braces: bool) returns (ok: bool)
      requires Valid() && depth <= MAX_DEPTH
      modifies this`p, this`depth
      ensures Valid() && old(p) <= p
      ensures ok <==> TakeMembers(old(Rest()), braces, old(depth), {}).Some?
      ensures ok ==> old(p) < p && depth == old(depth) && Rest() == TakeMembers(old(Rest()), braces, old(depth), {}).value.rest
      decreases |text| - p, 3
    {
      hide TakeHead, Skip, Gap, KeyOf;
      var keys: set<seq<byte>> := {};
      while true
        invariant Valid() && old(p) <= p && depth == old(depth)
        invariant SameEnd(TakeMembers(old(Rest()), braces, depth, {}), TakeMembers(Rest(), braces, depth, keys))
        decreases |text| - p
      {
        var name;
        ok, name := MemberToken(braces, keys);
        if !ok || p == |text| {
          ok := false;
          return;
        }
        if text[p] == Closing(braces) {
          p := p + 1;
          return;
        }
        if text[p] != COMMA {
          ok := false;
          return;
        }
        p := p + 1;
        keys := keys + {name};
        Ws();
      }
    }

    /** value_token */
    method ValueToken(rootKey: Option<seq<byte>>) returns (ok: bool)
      requires Valid() && depth <= MAX_DEPTH
      modifies this`p, this`depth
      ensures Valid() && old(p) <= p
      ensures ok <==> TakeValue(Skip(old(Rest())), old(depth), rootKey).Some?
      ensures ok ==> old(p) < p && depth == old(depth) && Rest() == TakeValue(Skip(old(Rest())), old(depth), rootKey).value.rest
      decreases |text| - p, 1
    {
      hide TakeScalar, TakeContainer, Skip;
      Ws();
      if p == |text| {
        NoScalar(rootKey);
        return false;
      }
      if text[p] == Opening(true) || text[p] == Opening(false) {
        ok := ContainerToken(text[p] == Opening(true));
      } else {
        ok := ScalarToken(rootKey);
      }
    }

    /** load_json's use of the scanner. */
    method RootToken() returns (ok: bool)
      requires Valid() && depth == 0
      modifies this`p, this`depth
      ensures ok <==> RootAccepted(old(Rest()))
    {
      hide TakeValue, Skip;
      Ws();
      if p == |text| || text[p] != Opening(true) {
        return false;
      }
      SkipStays(Rest());
      ok := ValueToken(None);
      if !ok {
        return;
      }
      Ws();
      ok := p == |text|;
    }

    lemma TextBefore(s: seq<byte>, start: nat, n: Number)
      requires start <= p <= |text| && s == text[start..] && s == NumberText(n) + text[p..]
      ensures text[start..p] == NumberText(n)
    {
      assert s[..p - start] == text[start..p];
      assert |NumberText(n)| == p - start;
    }
  }

  /** Two readings end alike. */
  predicate SameEnd(a: Option<Taken<Members>>, b: Option<Taken<Members>>) {
    a.Some? == b.Some? && (a.Some? ==> a.value.rest == b.value.rest)
  }

  lemma HeadName(rest: seq<byte>, s: seq<byte>, braces: bool, depth: nat, keys: set<seq<byte>>)
    requires TakeKey(s, braces, keys).Some? && TakeKey(s, braces, keys).value.rest == rest
    ensures TakeHead(s, braces, depth, keys).Some? ==>
              KeyOf(TakeHead(s, braces, depth, keys).value.item, braces) == KeyName(TakeKey(s, braces, keys).value.item, braces)
  {
    hide TakeKey, TakeValue, Skip, Decoded, LegalPieces;
  }

  lemma NoScalar(key: Option<seq<byte>>)
    ensures TakeScalar([], key).None?
  {
  }

  /** load_json up to the JSON library: the scanner answers exactly for the legal texts. */
  method LoadJson(text: seq<byte>) returns (ok: bool)
    ensures ok <==> LegalText(text)
  {
    hide RootAccepted, Utf8.Valid, LegalText;
    AcceptsExactlyLegal(text);
    if text == [] || |text| > MAX_BYTES || 0 in text || !Utf8.Valid(text) {
      return false;
    }
    ok := ScanRoot(text);
  }

  method ScanRoot(text: seq<byte>) returns (ok: bool)
    ensures ok <==> RootAccepted(text)
  {
    hide TakeValue, Skip, Gap, AllSpace;
    var l := new Lex(text);
    ok := l.RootToken();
  }

  lemma SkipStays(s: seq<byte>)
    requires s != [] && !Space(s[0])
    ensures Skip(s) == s
  {
  }

  lemma StartPending(start: seq<byte>)
    ensures Pending(start, [], start) && LegalPieces([]) && Decoded([]) == [] && !HasNul([])
  {
    hide TakePieces;
    if TakePieces(start).Some? {
      assert [] + TakePieces(start).value.item == TakePieces(start).value.item;
    }
  }

  lemma PendingEnds(start: seq<byte>, done: seq<Piece>, rest: seq<byte>)
    requires rest != [] && rest[0] == QUOTE && Pending(start, done, rest)
    ensures TakePieces(start) == Some(Taken(done, rest[1..]))
  {
    assert done + [] == done;
  }

  lemma PendingOpen(start: seq<byte>, done: seq<Piece>)
    requires Pending(start, done, [])
    ensures TakePieces(start).None?
  {
  }
}
