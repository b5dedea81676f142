/** Values, arrays and objects of the JSON texts the OTA agent accepts (manifest.c), and whole texts. */
module JsonText {
  import opened Bytes
  import opened Wrappers
  import opened Json
  import Decimal
  import Utf8

  // ---------------------------------------------------------------- concrete syntax

  /** A container is written with its white space; an array's members have no keys. */
  datatype Value =
    | Quoted(pieces: seq<Piece>)
    | Word(word: seq<byte>)
    | Numeral(number: Number)
    | Empty(braces: bool, gap: seq<byte>)
    | Full(braces: bool, gap: seq<byte>, members: Members)

  datatype Members = Members(key: seq<Piece>, colonGap: seq<byte>, gap: seq<byte>, value: Value, trail: seq<byte>, next: Next)

  datatype Next = End | Comma(gap: seq<byte>, more: Members)

  const WORDS: seq<seq<byte>> := [[0x74, 0x72, 0x75, 0x65], [0x66, 0x61, 0x6C, 0x73, 0x65], [0x6E, 0x75, 0x6C, 0x6C]]

  function Opening(braces: bool): byte { if braces then 0x7B else 0x5B }

  function Closing(braces: bool): byte { if braces then 0x7D else 0x5D }

  const COLON: byte := 0x3A
  const COMMA: byte := 0x2C

  function ValueText(v: Value): seq<byte>
    decreases v, 2
  {
    match v
    case Quoted(ps) => [QUOTE] + Text(ps) + [QUOTE]
    case Word(w) => w
    case Numeral(n) => NumberText(n)
    case Empty(braces, gap) => [Opening(braces)] + gap + [Closing(braces)]
    case Full(braces, gap, ms) => [Opening(braces)] + gap + MembersText(ms, braces)
  }

  function KeyText(m: Members, braces: bool): seq<byte> {
    if braces then [QUOTE] + Text(m.key) + [QUOTE] + m.colonGap + [COLON] else []
  }

  /** The first member. */
  function HeadText(m: Members, braces: bool): seq<byte>
    decreases m, 0
  {
    KeyText(m, braces) + m.gap + ValueText(m.value) + m.trail
  }

  /** The members up to and including the closing bracket. */
  function MembersText(m: Members, braces: bool): seq<byte>
    decreases m, 1
  {
    HeadText(m, braces) +
    match m.next
    case End => [Closing(braces)]
    case Comma(gap, more) => [COMMA] + gap + MembersText(more, braces)
  }

  // ---------------------------------------------------------------- the rules

  /** known_string, on a root name. */
  predicate KnownString(key: Option<seq<byte>>) {
    key.Some? && key.value in
      [Ascii("device_compatible"), Ascii("rauc_compatible"), Ascii("version"), Ascii("build_id"), Ascii("artifact_url"), Ascii("sha256")]
  }

  predicate Counted(key: Option<seq<byte>>) {
    key.Some? && (key.value == Ascii("size") || key.value == Ascii("schema_version"))
  }

  function Amount(digits: seq<byte>): nat
    requires AllDigits(digits)
  {
    if digits == [] then 0
    else
      assert digits[|digits| - 1] in digits;
      Amount(digits[..|digits| - 1]) * 10 + (digits[|digits| - 1] as int - 0x30)
  }

  /** A plain digit string of at most INT64_MAX. */
  predicate PlainInt64(n: Number) {
    !n.minus && n.fraction.None? && n.exponent.None? && AllDigits(n.whole) && Amount(n.whole) <= Decimal.INT64_MAX
  }

  /** The name under which a member's value is checked: only the root object's members have one. */
  function RootKey(braces: bool, depth: nat, key: seq<byte>): Option<seq<byte>> {
    if braces && depth == 1 then Some(key) else None
  }

  /** RFC 8259 syntax within 64 levels, with what the agent adds; `depth` is the nesting around the value. */
  ghost predicate LegalValue(v: Value, depth: nat, key: Option<seq<byte>>)
    decreases v, 2
  {
    match v
    case Quoted(ps) => LegalPieces(ps) && !(HasNul(ps) && KnownString(key))
    case Word(w) => w in WORDS
    case Numeral(n) => LegalNumber(n) && (Counted(key) ==> PlainInt64(n))
    case Empty(braces, gap) => depth < MAX_DEPTH && AllSpace(gap)
    case Full(braces, gap, ms) => depth < MAX_DEPTH && AllSpace(gap) && LegalMembers(ms, braces, depth + 1, {})
  }

  /** One member, its name not among those `seen` before it. */
  ghost predicate LegalHead(m: Members, braces: bool, depth: nat, seen: set<seq<byte>>)
    decreases m, 0
  {
    && LegalKey(m, braces, seen) && AllSpace(m.gap) && AllSpace(m.trail) && (!braces ==> m.gap == [])
    && LegalValue(m.value, depth, RootKey(braces, depth, KeyOf(m, braces)))
  }

  /** Names are distinct once decoded. */
  ghost predicate LegalMembers(m: Members, braces: bool, depth: nat, seen: set<seq<byte>>)
    decreases m, 1
  {
    && LegalHead(m, braces, depth, seen)
    && (m.next.Comma? ==> AllSpace(m.next.gap) && LegalMembers(m.next.more, braces, depth, seen + {KeyOf(m, braces)}))
  }

  function KeyOf(m: Members, braces: bool): seq<byte> {
    if braces && LegalPieces(m.key) then Decoded(m.key) else []
  }

  predicate LegalKey(m: Members, braces: bool, seen: set<seq<byte>>) {
    if braces then LegalPieces(m.key) && !HasNul(m.key) && Decoded(m.key) !in seen && AllSpace(m.colonGap)
    else m.key == [] && m.colonGap == []
  }

  // ---------------------------------------------------------------- reading

  function Gap(s: seq<byte>): (n: nat)
    ensures n <= |s| && AllSpace(s[..n]) && (n < |s| ==> !Space(s[n]))
  {
    if s == [] || !Space(s[0]) then 0
    else
      var n := Gap(s[1..]);
      assert s[..n + 1] == [s[0]] + s[1..][..n];
      n + 1
  }

  /** ws */
  function Skip(s: seq<byte>): (r: seq<byte>)
    ensures |r| <= |s| && (r == [] || !Space(r[0]))
  {
    s[Gap(s)..]
  }

  predicate StartsWith(s: seq<byte>, w: seq<byte>) {
    |s| >= |w| && s[..|w|] == w
  }

  /** The word at the front of `s`, in the order the C code tries them. */
  function TakeWord(s: seq<byte>): (r: Option<Taken<seq<byte>>>)
    ensures r.Some? ==> |r.value.rest| < |s|
  {
    if StartsWith(s, WORDS[0]) then Some(Taken(WORDS[0], s[|WORDS[0]|..]))
    else if StartsWith(s, WORDS[1]) then Some(Taken(WORDS[1], s[|WORDS[1]|..]))
    else if StartsWith(s, WORDS[2]) then Some(Taken(WORDS[2], s[|WORDS[2]|..]))
    else None
  }

  /** string_token, from its opening quote. */
  function TakeString(s: seq<byte>): (r: Option<Taken<seq<Piece>>>)
    ensures r.Some? ==> |r.value.rest| < |s|
  {
    if s == [] || s[0] != QUOTE then None else TakePieces(s[1..])
  }

  /** The part of value_token that does not recurse: strings, words and numbers. */
  function TakeScalar(s: seq<byte>, key: Option<seq<byte>>): (r: Option<Taken<Value>>)
    ensures r.Some? ==> |r.value.rest| < |s|
  {
    if s != [] && s[0] == QUOTE then
      var t := TakeString(s);
      if t.None? || (HasNul(t.value.item) && KnownString(key)) then None else Some(Taken(Quoted(t.value.item), t.value.rest))
    else if TakeWord(s).Some? then Some(Taken(Word(TakeWord(s).value.item), TakeWord(s).value.rest))
    else
      var n := TakeNumber(s);
      if n.None? || (Counted(key) && !PlainInt64(n.value.item)) then None
      else Some(Taken(Numeral(n.value.item), n.value.rest))
  }

  /** container_token, from its opening bracket. */
  function TakeContainer(s: seq<byte>, braces: bool, depth: nat): (r: Option<Taken<Value>>)
    requires s != []
    ensures r.Some? ==> |r.value.rest| < |s|
    decreases |s|, 0
  {
    var gap, t := s[1..][..Gap(s[1..])], Skip(s[1..]);
    if depth >= MAX_DEPTH then None
    else if t != [] && t[0] == Closing(braces) then Some(Taken(Empty(braces, gap), t[1..]))
    else
      var ms := TakeMembers(t, braces, depth + 1, {});
      if ms.None? then None else Some(Taken(Full(braces, gap, ms.value.item), ms.value.rest))
  }

  /** value_token on a text without leading white space. */
  function TakeValue(s: seq<byte>, depth: nat, key: Option<seq<byte>>): (r: Option<Taken<Value>>)
    ensures r.Some? ==> |r.value.rest| < |s|
    decreases |s|, 1
  {
    if s != [] && (s[0] == Opening(true) || s[0] == Opening(false)) then TakeContainer(s, s[0] == Opening(true), depth)
    else TakeScalar(s, key)
  }

  datatype Key = Key(pieces: seq<Piece>, colonGap: seq<byte>)

  /** A fresh name and its colon; nothing in an array. */
  function TakeKey(s: seq<byte>, braces: bool, seen: set<seq<byte>>): (r: Option<Taken<Key>>)
    ensures r.Some? ==> |r.value.rest| <= |s|
    ensures r.Some? && braces ==> LegalPieces(r.value.item.pieces)
  {
    if !braces then Some(Taken(Key([], []), s))
    else
      var name := TakeString(s);
      if name.None? then None
      else
        assert LegalPieces(name.value.item) by { PiecesSound(s[1..]); }
        var t := Skip(name.value.rest);
        if HasNul(name.value.item) || Decoded(name.value.item) in seen || t == [] || t[0] != COLON then None
        else Some(Taken(Key(name.value.item, name.value.rest[..Gap(name.value.rest)]), t[1..]))
  }

  function KeyName(k: Key, braces: bool): seq<byte>
    requires braces ==> LegalPieces(k.pieces)
  {
    if braces then Decoded(k.pieces) else []
  }

  /** One turn of container_token's loop, up to the comma or bracket. */
  function TakeHead(s: seq<byte>, braces: bool, depth: nat, seen: set<seq<byte>>): (r: Option<Taken<Members>>)
    ensures r.Some? ==> |r.value.rest| < |s|
    decreases |s|, 2
  {
    var k := TakeKey(s, braces, seen);
    if k.None? then None
    else
      var t := Skip(k.value.rest);
      var v := TakeValue(t, depth, RootKey(braces, depth, KeyName(k.value.item, braces)));
      if v.None? then None
      else
        Some(Taken(Members(k.value.item.pieces, k.value.item.colonGap, k.value.rest[..Gap(k.value.rest)], v.value.item,
                           v.value.rest[..Gap(v.value.rest)], End), Skip(v.value.rest)))
  }

  /** The loop of container_token. */
  function TakeMembers(s: seq<byte>, braces: bool, depth: nat, seen: set<seq<byte>>): (r: Option<Taken<Members>>)
    ensures r.Some? ==> |r.value.rest| < |s|
    decreases |s|, 3
  {
    var h := TakeHead(s, braces, depth, seen);
    if h.None? then None
    else
      var head, u := h.value.item, h.value.rest;
      if u == [] then None
      else if u[0] == Closing(braces) then Some(Taken(head, u[1..]))
      else if u[0] != COMMA then None
      else
        var ms := TakeMembers(Skip(u[1..]), braces, depth, seen + {KeyOf(head, braces)});
        if ms.None? then None
        else Some(Taken(head.(next := Comma(u[1..][..Gap(u[1..])], ms.value.item)), ms.value.rest))
  }

  // ---------------------------------------------------------------- whole texts

  const MAX_BYTES := 65536

  /** White space, an object, white space. */
  predicate RootAccepted(text: seq<byte>) {
    var t := Skip(text);
    && t != [] && t[0] == Opening(true)
    && var v := TakeValue(t, 0, None); v.Some? && Skip(v.value.rest) == []
  }

  /** load_json's checks up to the point where the text goes to the JSON library. */
  predicate Accepts(text: seq<byte>) {
    0 < |text| <= MAX_BYTES && 0 !in text && Utf8.Valid(text) && RootAccepted(text)
  }

  /** The text is white space, one legal object, white space. */
  ghost predicate Spells(text: seq<byte>, v: Value, before: seq<byte>, after: seq<byte>) {
    (v.Empty? || v.Full?) && v.braces && LegalValue(v, 0, None) && AllSpace(before) && AllSpace(after)
    && text == before + ValueText(v) + after
  }

  ghost predicate LegalText(text: seq<byte>) {
    && 0 < |text| <= MAX_BYTES && 0 !in text && Utf8.Valid(text)
    && exists v: Value, before: seq<byte>, after: seq<byte> :: Spells(text, v, before, after)
  }
}
