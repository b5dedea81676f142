/** The recogniser of JsonText accepts exactly the legal texts, each in one way. */
module JsonProofs {
  import opened Bytes
  import opened Wrappers
  import opened Json
  import opened JsonText
  import Utf8

  lemma {:induction false} SkipOf(gap: seq<byte>, rest: seq<byte>)
    requires AllSpace(gap) && (rest == [] || !Space(rest[0]))
    ensures Gap(gap + rest) == |gap| && Skip(gap + rest) == rest
  {
    if gap == [] {
      assert gap + rest == rest;
    } else {
      assert gap[0] in gap;
      SkipOf(gap[1..], rest);
      assert (gap + rest)[1..] == gap[1..] + rest;
    }
    assert (gap + rest)[|gap|..] == rest;
  }

  lemma SkipSplits(s: seq<byte>)
    ensures s == s[..Gap(s)] + Skip(s) && AllSpace(s[..Gap(s)])
  {
  }

  // ---------------------------------------------------------------- what is accepted is legal

  lemma StringSound(s: seq<byte>)
    requires TakeString(s).Some?
    ensures var r := TakeString(s).value; LegalPieces(r.item) && s == [QUOTE] + Text(r.item) + [QUOTE] + r.rest
  {
    hide TakePieces, Text, LegalPieces;
    PiecesSound(s[1..]);
    assert s == [s[0]] + s[1..];
  }

  lemma WordSound(s: seq<byte>)
    requires TakeWord(s).Some?
    ensures var r := TakeWord(s).value; r.item in WORDS && s == r.item + r.rest
  {
  }

  lemma ScalarSound(s: seq<byte>, depth: nat, key: Option<seq<byte>>)
    requires TakeScalar(s, key).Some?
    ensures var r := TakeScalar(s, key).value; LegalValue(r.item, depth, key) && s == ValueText(r.item) + r.rest
  {
    hide TakeString, TakeWord, TakeNumber, Text, NumberText, LegalNumber, PlainInt64, LegalPieces, HasNul, KnownString, Counted;
    if s != [] && s[0] == QUOTE {
      StringSound(s);
    } else if TakeWord(s).Some? {
      WordSound(s);
    } else {
      NumberSound(s);
    }
  }

  lemma KeySound(s: seq<byte>, braces: bool, seen: set<seq<byte>>, m: Members)
    requires TakeKey(s, braces, seen).Some?
    requires m.key == TakeKey(s, braces, seen).value.item.pieces && m.colonGap == TakeKey(s, braces, seen).value.item.colonGap
    ensures LegalKey(m, braces, seen) && KeyOf(m, braces) == KeyName(TakeKey(s, braces, seen).value.item, braces)
    ensures s == KeyText(m, braces) + TakeKey(s, braces, seen).value.rest
  {
    hide TakeString, Text, LegalPieces, HasNul, Decoded;
    if braces {
      var name := TakeString(s).value;
      StringSound(s);
      SkipSplits(name.rest);
      var t := Skip(name.rest);
      assert t == [COLON] + t[1..];
    }
  }

  lemma {:induction false} ValueSound(s: seq<byte>, depth: nat, key: Option<seq<byte>>)
    requires TakeValue(s, depth, key).Some?
    ensures var r := TakeValue(s, depth, key).value; LegalValue(r.item, depth, key) && s == ValueText(r.item) + r.rest
    decreases |s|, 1
  {
    hide TakeScalar, LegalValue, ValueText, TakeContainer;
    if s != [] && (s[0] == Opening(true) || s[0] == Opening(false)) {
      ContainerSound(s, s[0] == Opening(true), depth, key);
    } else {
      ScalarSound(s, depth, key);
    }
  }

  lemma {:induction false} ContainerSound(s: seq<byte>, braces: bool, depth: nat, key: Option<seq<byte>>)
    requires s != [] && s[0] == Opening(braces) && TakeContainer(s, braces, depth).Some?
    ensures var r := TakeContainer(s, braces, depth).value; LegalValue(r.item, depth, key) && s == ValueText(r.item) + r.rest
    decreases |s|, 0
  {
    hide TakeMembers, Gap, Skip, AllSpace, LegalMembers, MembersText, LegalPieces, LegalNumber, PlainInt64, NumberText, Text, HasNul, KnownString, Counted;
    var r := TakeContainer(s, braces, depth).value;
    SkipSplits(s[1..]);
    var gap, t := s[1..][..Gap(s[1..])], Skip(s[1..]);
    if t != [] && t[0] == Closing(braces) {
      assert t == [Closing(braces)] + t[1..];
      OpenedWith(s, gap, t, [Closing(braces)], t[1..]);
    } else {
      MembersSound(t, braces, depth + 1, {});
      OpenedWith(s, gap, t, MembersText(r.item.members, braces), r.rest);
    }
  }

  lemma OpenedWith(s: seq<byte>, gap: seq<byte>, t: seq<byte>, inner: seq<byte>, rest: seq<byte>)
    requires s != [] && s[1..] == gap + t && t == inner + rest
    ensures s == ([s[0]] + gap + inner) + rest
  {
  }

  lemma {:induction false} HeadSound(s: seq<byte>, braces: bool, depth: nat, seen: set<seq<byte>>)
    requires (s == [] || !Space(s[0])) && TakeHead(s, braces, depth, seen).Some?
    ensures var r := TakeHead(s, braces, depth, seen).value;
      LegalHead(r.item, braces, depth, seen) && r.item.next == End && s == HeadText(r.item, braces) + r.rest
    decreases |s|, 2
  {
    hide TakeKey, TakeValue, KeyName, LegalKey, KeyOf, KeyText, LegalValue, ValueText, RootKey, AllSpace;
    var r := TakeHead(s, braces, depth, seen).value;
    var k := TakeKey(s, braces, seen).value;
    KeySound(s, braces, seen, r.item);
    SkipSplits(k.rest);
    var t := Skip(k.rest);
    ValueSound(t, depth, RootKey(braces, depth, KeyName(k.item, braces)));
    var v := TakeValue(t, depth, RootKey(braces, depth, KeyName(k.item, braces))).value;
    SkipSplits(v.rest);
    if !braces {
      NoKey(s, seen);
    }
    FiveParts(KeyText(r.item, braces), r.item.gap, ValueText(r.item.value), r.item.trail, r.rest);
  }

  lemma NoKey(s: seq<byte>, seen: set<seq<byte>>)
    ensures TakeKey(s, false, seen) == Some(Taken(Key([], []), s))
    ensures s == [] || !Space(s[0]) ==> Gap(s) == 0
  {
  }

  lemma FiveParts(a: seq<byte>, b: seq<byte>, c: seq<byte>, d: seq<byte>, e: seq<byte>)
    ensures a + (b + (c + (d + e))) == (a + b + c + d) + e
  {
  }

  lemma {:induction false} MembersSound(s: seq<byte>, braces: bool, depth: nat, seen: set<seq<byte>>)
    requires (s == [] || !Space(s[0])) && TakeMembers(s, braces, depth, seen).Some?
    ensures var r := TakeMembers(s, braces, depth, seen).value;
      LegalMembers(r.item, braces, depth, seen) && s == MembersText(r.item, braces) + r.rest
    decreases |s|, 3
  {
    hide TakeHead, LegalHead, HeadText, AllSpace, Gap;
    var r := TakeMembers(s, braces, depth, seen).value;
    HeadSound(s, braces, depth, seen);
    var head, u := TakeHead(s, braces, depth, seen).value.item, TakeHead(s, braces, depth, seen).value.rest;
    HeadOnly(head, r.item, braces, depth, seen);
    if u[0] == Closing(braces) {
      assert u == [Closing(braces)] + u[1..];
      TwoParts(HeadText(head, braces), [Closing(braces)], u, r.rest);
    } else {
      SkipSplits(u[1..]);
      var gap, t := u[1..][..Gap(u[1..])], Skip(u[1..]);
      MembersSound(t, braces, depth, seen + {KeyOf(head, braces)});
      OpenedWith(u, gap, t, MembersText(r.item.next.more, braces), r.rest);
      TwoParts(HeadText(head, braces), [COMMA] + gap + MembersText(r.item.next.more, braces), u, r.rest);
    }
  }

  lemma TwoParts(head: seq<byte>, next: seq<byte>, u: seq<byte>, rest: seq<byte>)
    requires u == next + rest
    ensures head + u == (head + next) + rest
  {
  }

  /** The first member is what it is whatever comes next. */
  lemma HeadOnly(h: Members, m: Members, braces: bool, depth: nat, seen: set<seq<byte>>)
    requires m == h.(next := m.next)
    ensures HeadText(m, braces) == HeadText(h, braces) && KeyOf(m, braces) == KeyOf(h, braces)
    ensures LegalHead(m, braces, depth, seen) == LegalHead(h, braces, depth, seen)
  {
    hide AllSpace, Decoded, LegalPieces, HasNul;
  }

  // ---------------------------------------------------------------- what is legal is accepted

  predicate Starts(s: seq<byte>) {
    s != [] && !Space(s[0]) && s[0] != Closing(true) && s[0] != Closing(false)
  }

  lemma WordComplete(w: seq<byte>, rest: seq<byte>)
    requires w in WORDS
    ensures TakeWord(w + rest) == Some(Taken(w, rest)) && Starts(w) && w[0] != QUOTE && w[0] != Opening(true) && w[0] != Opening(false)
  {
    assert (w + rest)[|w|..] == rest && (w + rest)[..|w|] == w;
    assert (w + rest)[0] == w[0];
  }

  lemma NoWord(s: seq<byte>)
    requires s != [] && (s[0] == 0x2D || Digit(s[0]))
    ensures TakeWord(s).None?
  {
    assert forall w <- WORDS :: StartsWith(s, w) ==> s[..|w|][0] == s[0];
  }

  lemma StringComplete(ps: seq<Piece>, rest: seq<byte>)
    requires LegalPieces(ps)
    ensures TakeString([QUOTE] + Text(ps) + [QUOTE] + rest) == Some(Taken(ps, rest))
  {
    hide TakePieces, Text, LegalPieces;
    PiecesComplete(ps, rest);
    assert ([QUOTE] + Text(ps) + [QUOTE] + rest)[1..] == Text(ps) + [QUOTE] + rest;
  }

  lemma ScalarComplete(v: Value, depth: nat, key: Option<seq<byte>>, rest: seq<byte>)
    requires (v.Quoted? || v.Word? || v.Numeral?) && LegalValue(v, depth, key) && Follows(rest)
    ensures TakeValue(ValueText(v) + rest, depth, key) == Some(Taken(v, rest)) && Starts(ValueText(v))
  {
    hide TakeString, TakeWord, TakeNumber, Text, NumberText, LegalNumber, PlainInt64, LegalPieces, HasNul, KnownString, Counted, Follows;
    var s := ValueText(v) + rest;
    match v
    case Quoted(ps) =>
      StringComplete(ps, rest);
      assert s[0] == QUOTE;
    case Word(w) =>
      WordComplete(w, rest);
      assert s[0] == w[0];
    case Numeral(n) =>
      NumberComplete(n, rest);
      assert s[0] == NumberText(n)[0];
      NoWord(s);
    case _ =>
  }

  lemma KeyComplete(m: Members, braces: bool, seen: set<seq<byte>>, rest: seq<byte>)
    requires LegalKey(m, braces, seen)
    ensures TakeKey(KeyText(m, braces) + rest, braces, seen) == Some(Taken(Key(m.key, m.colonGap), rest))
    ensures KeyOf(m, braces) == KeyName(Key(m.key, m.colonGap), braces)
    ensures braces ==> Starts(KeyText(m, braces))
  {
    hide TakeString, Text, LegalPieces, HasNul, Decoded;
    if braces {
      var tail := [COLON] + rest;
      StringComplete(m.key, m.colonGap + tail);
      SkipOf(m.colonGap, tail);
      assert (m.colonGap + tail)[..|m.colonGap|] == m.colonGap;
      assert KeyText(m, braces) + rest == [QUOTE] + Text(m.key) + [QUOTE] + (m.colonGap + tail);
    } else {
      assert KeyText(m, braces) + rest == rest;
    }
  }

  lemma {:induction false} ValueComplete(v: Value, depth: nat, key: Option<seq<byte>>, rest: seq<byte>)
    requires LegalValue(v, depth, key) && Follows(rest)
    ensures TakeValue(ValueText(v) + rest, depth, key) == Some(Taken(v, rest)) && Starts(ValueText(v))
    decreases v, 2
  {
    hide TakeScalar, TakeMembers, LegalMembers, MembersText, Follows, AllSpace, Skip, Gap;
    match v
    case Empty(braces, gap) => EmptyComplete(braces, gap, depth, key, rest);
    case Full(braces, gap, ms) =>
      MembersComplete(ms, braces, depth + 1, {}, rest);
      Bracketed(Opening(braces), gap, MembersText(ms, braces), rest);
    case _ =>
      ScalarComplete(v, depth, key, rest);
  }

  lemma EmptyComplete(braces: bool, gap: seq<byte>, depth: nat, key: Option<seq<byte>>, rest: seq<byte>)
    requires AllSpace(gap) && depth < MAX_DEPTH
    ensures TakeValue(ValueText(Empty(braces, gap)) + rest, depth, key) == Some(Taken(Empty(braces, gap), rest))
  {
    hide TakeScalar, TakeMembers, AllSpace;
    Bracketed(Opening(braces), gap, [Closing(braces)], rest);
    assert ([Closing(braces)] + rest)[1..] == rest;
  }

  lemma Bracketed(opening: byte, gap: seq<byte>, inner: seq<byte>, rest: seq<byte>)
    requires AllSpace(gap) && inner != [] && !Space(inner[0])
    ensures var s := [opening] + gap + inner + rest;
      s[0] == opening && Skip(s[1..]) == inner + rest && s[1..][..Gap(s[1..])] == gap && (inner + rest)[0] == inner[0]
  {
    var t := inner + rest;
    SkipOf(gap, t);
    assert ([opening] + gap + inner + rest)[1..] == gap + t;
    assert (gap + t)[..|gap|] == gap;
  }

  lemma {:induction false} HeadComplete(m: Members, braces: bool, depth: nat, seen: set<seq<byte>>, rest: seq<byte>)
    requires LegalHead(m, braces, depth, seen) && rest != [] && (rest[0] == COMMA || rest[0] == Closing(braces))
    ensures TakeHead(HeadText(m, braces) + rest, braces, depth, seen) == Some(Taken(m.(next := End), rest))
    ensures Starts(HeadText(m, braces))
    decreases m, 0
  {
    hide TakeKey, TakeValue, KeyName, LegalKey, KeyOf, KeyText, LegalValue, ValueText, RootKey, AllSpace, Skip, Gap;
    var tail := m.trail + rest;
    var value := ValueText(m.value) + tail;
    TrailFollows(m.trail, rest, braces);
    ValueComplete(m.value, depth, RootKey(braces, depth, KeyOf(m, braces)), tail);
    KeyComplete(m, braces, seen, m.gap + value);
    SkipOf(m.trail, rest);
    SkipOf(m.gap, value);
    assert (m.trail + rest)[..|m.trail|] == m.trail && (m.gap + value)[..|m.gap|] == m.gap;
    FiveParts(KeyText(m, braces), m.gap, ValueText(m.value), m.trail, rest);
    if !braces {
      NoKeyText(m);
    }
  }

  lemma NoKeyText(m: Members)
    ensures KeyText(m, false) == []
  {
  }

  lemma TrailFollows(trail: seq<byte>, rest: seq<byte>, braces: bool)
    requires AllSpace(trail) && rest != [] && (rest[0] == COMMA || rest[0] == Closing(braces))
    ensures Follows(trail + rest)
  {
  }

  lemma {:induction false} MembersComplete(m: Members, braces: bool, depth: nat, seen: set<seq<byte>>, rest: seq<byte>)
    requires LegalMembers(m, braces, depth, seen)
    ensures TakeMembers(MembersText(m, braces) + rest, braces, depth, seen) == Some(Taken(m, rest))
    ensures Starts(MembersText(m, braces))
    decreases m, 1
  {
    hide TakeHead, LegalHead, HeadText, AllSpace, Gap, Skip;
    match m.next
    case End =>
      var u := [Closing(braces)] + rest;
      HeadComplete(m, braces, depth, seen, u);
      assert HeadText(m, braces) + [Closing(braces)] + rest == HeadText(m, braces) + u;
      assert u[1..] == rest && m.(next := End) == m;
    case Comma(gap, more) =>
      var inner := MembersText(more, braces);
      var u := [COMMA] + gap + inner + rest;
      MembersComplete(more, braces, depth, seen + {KeyOf(m, braces)}, rest);
      Bracketed(COMMA, gap, inner, rest);
      HeadComplete(m, braces, depth, seen, u);
      HeadOnly(m, m.(next := End), braces, depth, seen);
      Regroup(HeadText(m, braces), [COMMA] + gap, inner, rest);
  }

  // ---------------------------------------------------------------- whole texts

  lemma RootSkips(before: seq<byte>, v: Value, after: seq<byte>)
    requires AllSpace(before) && AllSpace(after) && Starts(ValueText(v))
    ensures Skip(before + ValueText(v) + after) == ValueText(v) + after && Follows(after) && Skip(after) == []
  {
    hide ValueText;
    var t := ValueText(v) + after;
    SkipOf(before, t);
    assert before + ValueText(v) + after == before + t;
    SkipOf(after, []);
    assert after + [] == after;
    assert after != [] ==> after[0] in after;
  }

  /**
   The recogniser accepts a text exactly when it is, within white space, an object of RFC 8259 nested
   at most 64 deep, with distinct NUL-free names in each object, only paired surrogates, no NUL in
   the known root strings, and plain int64 digits for any root size and schema_version number.
   */
  lemma AcceptsExactlyLegal(text: seq<byte>)
    ensures Accepts(text) <==> LegalText(text)
  {
    hide RootAccepted, Spells, Utf8.Valid;
    if Accepts(text) {
      var v, before, after := AcceptedIsLegal(text);
    }
    if v: Value, before: seq<byte>, after: seq<byte> :| Spells(text, v, before, after) {
      LegalIsAccepted(text, v, before, after);
    }
  }

  lemma LegalIsAccepted(text: seq<byte>, v: Value, before: seq<byte>, after: seq<byte>)
    requires Spells(text, v, before, after)
    ensures RootAccepted(text)
  {
    hide TakeValue, Spells, Skip;
    SpellingRead(text, v, before, after);
  }

  lemma AcceptedIsLegal(text: seq<byte>) returns (v: Value, before: seq<byte>, after: seq<byte>)
    requires RootAccepted(text)
    ensures Spells(text, v, before, after)
  {
    hide TakeValue, LegalValue, ValueText, AllSpace, Gap;
    var t := Skip(text);
    v, before, after := TakeValue(t, 0, None).value.item, text[..Gap(text)], TakeValue(t, 0, None).value.rest;
    SkipSplits(text);
    ValueSound(t, 0, None);
    SkipSplits(after);
    assert after[..Gap(after)] == after;
    assert text == before + ValueText(v) + after;
    RootIsObject(t, v, after);
  }

  lemma RootIsObject(t: seq<byte>, v: Value, rest: seq<byte>)
    requires t != [] && t[0] == Opening(true) && TakeValue(t, 0, None) == Some(Taken(v, rest))
    ensures (v.Empty? || v.Full?) && v.braces
  {
    hide TakeMembers, Skip, Gap;
  }

  lemma StartsHere(v: Value)
    requires (v.Empty? || v.Full?) && v.braces
    ensures Starts(ValueText(v)) && ValueText(v)[0] == Opening(true)
  {
    hide MembersText;
  }

  /** The tree of a legal text is what the recogniser reads. */
  lemma SpellingRead(text: seq<byte>, v: Value, before: seq<byte>, after: seq<byte>)
    requires Spells(text, v, before, after)
    ensures TakeValue(Skip(text), 0, None) == Some(Taken(v, after)) && before == text[..|text| - |Skip(text)|]
    ensures Skip(text) != [] && Skip(text)[0] == Opening(true) && Skip(after) == []
  {
    hide TakeValue, LegalValue, ValueText, Gap, AllSpace, Follows;
    StartsHere(v);
    RootSkips(before, v, after);
    ValueComplete(v, 0, None, after);
    assert (before + ValueText(v) + after)[..|before|] == before;
  }

  /** A legal text is spelled in one way only. */
  lemma OneSpelling(text: seq<byte>, v: Value, before: seq<byte>, after: seq<byte>, w: Value, front: seq<byte>, back: seq<byte>)
    requires Spells(text, v, before, after) && Spells(text, w, front, back)
    ensures v == w && before == front && after == back
  {
    hide TakeValue, Spells, Skip;
    SpellingRead(text, v, before, after);
    SpellingRead(text, w, front, back);
  }
}
