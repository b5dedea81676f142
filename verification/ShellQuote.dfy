/**
 The single-quoted values RAUC prints (rauc_adapter.c): the decoder inverts the encoder, accepts
 nothing else, and a bundle's identity has each of its three assignments exactly once.
 */
module ShellQuote {
  import opened Bytes
  import opened Wrappers
  import Utf8

  const TEXT_CAP := 256
  const APOSTROPHE: byte := 0x27
  const BACKSLASH: byte := 0x5C
  const EQUALS: byte := 0x3D

  predicate Control(b: byte) {
    b < 0x20 || b == 0x7F
  }

  predicate Printable(t: seq<byte>) {
    forall b <- t :: !Control(b)
  }

  /** g_shell_quote: between apostrophes, an apostrophe leaves the quotes and comes back escaped. */
  function Escaped(t: seq<byte>): seq<byte> {
    if t == [] then []
    else (if t[0] == APOSTROPHE then [APOSTROPHE, BACKSLASH, APOSTROPHE, APOSTROPHE] else [t[0]]) + Escaped(t[1..])
  }

  function Quote(t: seq<byte>): seq<byte> {
    [APOSTROPHE] + Escaped(t) + [APOSTROPHE]
  }

  /** What the decoder takes for a value. */
  predicate Acceptable(t: seq<byte>) {
    0 < |t| < TEXT_CAP && Printable(t) && Utf8.Valid(t)
  }

  /** The rest of a value from inside its quotes. */
  function Inside(s: seq<byte>): Option<seq<byte>> {
    if s == [] then None
    else if s[0] != APOSTROPHE then
      if Control(s[0]) then None
      else
        var more := Inside(s[1..]);
        if more.None? then None else Some([s[0]] + more.value)
    else if |s| == 1 then Some([])
    else if |s| >= 4 && s[1] == BACKSLASH && s[2] == APOSTROPHE && s[3] == APOSTROPHE then
      var more := Inside(s[4..]);
      if more.None? then None else Some([APOSTROPHE] + more.value)
    else None
  }

  lemma EscapedHead(t: seq<byte>)
    requires t != []
    ensures var s, rest := Escaped(t) + [APOSTROPHE], Escaped(t[1..]) + [APOSTROPHE];
      if t[0] == APOSTROPHE then
        |s| >= 4 && s[0] == APOSTROPHE && s[1] == BACKSLASH && s[2] == APOSTROPHE && s[3] == APOSTROPHE && s[4..] == rest
      else |s| >= 1 && s[0] == t[0] && s[1..] == rest
  {
    var first := if t[0] == APOSTROPHE then [APOSTROPHE, BACKSLASH, APOSTROPHE, APOSTROPHE] else [t[0]];
    assert Escaped(t) == first + Escaped(t[1..]);
    AfterFirst(first, Escaped(t[1..]), [APOSTROPHE]);
  }

  lemma AfterFirst(first: seq<byte>, middle: seq<byte>, last: seq<byte>)
    ensures (first + middle + last)[|first|..] == middle + last && (first + middle + last)[..|first|] == first
  {
  }

  lemma {:induction false} InsideOfEscaped(t: seq<byte>)
    requires Printable(t)
    ensures Inside(Escaped(t) + [APOSTROPHE]) == Some(t)
  {
    if t == [] {
      assert Escaped(t) + [APOSTROPHE] == [APOSTROPHE];
    } else {
      InsideOfEscaped(t[1..]);
      EscapedHead(t);
      assert !Control(t[0]) && t == [t[0]] + t[1..];
    }
  }

  lemma {:induction false} EscapedOfInside(s: seq<byte>)
    requires Inside(s).Some?
    ensures s == Escaped(Inside(s).value) + [APOSTROPHE] && Printable(Inside(s).value)
  {
    var t := Inside(s).value;
    if s[0] != APOSTROPHE {
      EscapedOfInside(s[1..]);
      assert t[1..] == Inside(s[1..]).value;
      assert s == [s[0]] + s[1..];
    } else if |s| == 1 {
      assert s == [APOSTROPHE];
    } else {
      EscapedOfInside(s[4..]);
      assert t[1..] == Inside(s[4..]).value;
      assert s == [APOSTROPHE, BACKSLASH, APOSTROPHE, APOSTROPHE] + s[4..];
    }
  }

  /** quoted_value. The text ends at its first NUL, so it holds none. */
  method QuotedValue(text: seq<byte>) returns (value: Option<seq<byte>>)
    requires 0 !in text
    ensures value.Some? <==> exists t: seq<byte> :: Acceptable(t) && text == Quote(t)
    ensures value.Some? ==> Acceptable(value.value) && text == Quote(value.value)
  {
    hide Utf8.Valid;
    var scanned, decoded := Scan(text);
    if !scanned || decoded == [] || |decoded| >= TEXT_CAP || !Utf8.Valid(decoded) {
      forall t: seq<byte> ensures !(Acceptable(t) && text == Quote(t)) {
        if Acceptable(t) && text == Quote(t) {
          ScanOfQuote(text, t, scanned, decoded);
        }
      }
      return None;
    }
    value := Some(decoded);
    EscapedOfInside(text[1..]);
    assert text == [text[0]] + text[1..];
    assert Acceptable(decoded) && text == Quote(decoded);
  }

  lemma ScanOfQuote(text: seq<byte>, t: seq<byte>, scanned: bool, decoded: seq<byte>)
    requires Acceptable(t) && text == Quote(t)
    requires scanned <==> text == [] || (text[0] == APOSTROPHE && Inside(text[1..]).Some?)
    requires scanned && text != [] ==> Inside(text[1..]) == Some(decoded)
    ensures scanned && decoded == t
  {
    hide Utf8.Valid;
    InsideOfEscaped(t);
    assert text[1..] == Escaped(t) + [APOSTROPHE];
  }

  /** What is still to be read, after `done`, in a value read from `start` inside its quotes. */
  ghost predicate Pending(start: seq<byte>, done: seq<byte>, rest: seq<byte>) {
    var more := Inside(rest);
    Inside(start) == if more.None? then None else Some(done + more.value)
  }

  /** The scanning loops: segments between apostrophes, joined by escaped apostrophes. */
  method Scan(text: seq<byte>) returns (ok: bool, decoded: seq<byte>)
    ensures ok <==> text == [] || (text[0] == APOSTROPHE && Inside(text[1..]).Some?)
    ensures ok && text != [] ==> Inside(text[1..]) == Some(decoded)
    ensures ok && text == [] ==> decoded == []
  {
    decoded := [];
    if text == [] {
      return true, [];
    }
    if text[0] != APOSTROPHE {
      return false, [];
    }
    var p := 1;
    ghost var start := text[1..];
    assert Inside(start).Some? ==> [] + Inside(start).value == Inside(start).value;
    while true
      invariant 1 <= p <= |text| && Pending(start, decoded, text[p..])
      decreases |text| - p
    {
      while p < |text| && text[p] != APOSTROPHE
        invariant 1 <= p <= |text| && Pending(start, decoded, text[p..])
      {
        if Control(text[p]) {
          return false, decoded;
        }
        PendingMore(start, decoded, text[p..], 1, text[p]);
        assert text[p..][1..] == text[p + 1..];
        decoded, p := decoded + [text[p]], p + 1;
      }
      if p == |text| {
        return false, decoded;
      }
      if p + 1 == |text| {
        assert decoded + [] == decoded;
        return true, decoded;
      }
      if p + 3 >= |text| || text[p + 1] != BACKSLASH || text[p + 2] != APOSTROPHE || text[p + 3] != APOSTROPHE {
        return false, decoded;
      }
      PendingMore(start, decoded, text[p..], 4, APOSTROPHE);
      assert text[p..][4..] == text[p + 4..];
      decoded, p := decoded + [APOSTROPHE], p + 4;
    }
  }

  lemma PendingMore(start: seq<byte>, done: seq<byte>, rest: seq<byte>, n: nat, b: byte)
    requires Pending(start, done, rest) && n <= |rest|
    requires Inside(rest) == if Inside(rest[n..]).None? then None else Some([b] + Inside(rest[n..]).value)
    ensures Pending(start, done + [b], rest[n..])
  {
    if Inside(rest[n..]).Some? {
      assert done + ([b] + Inside(rest[n..]).value) == done + [b] + Inside(rest[n..]).value;
    }
  }

  // ---------------------------------------------------------------- the identity of a bundle

  /** The line assigns to `key`. */
  predicate Assigns(line: seq<byte>, key: seq<byte>) {
    |line| > |key| && line[..|key|] == key && line[|key|] == EQUALS
  }

  ghost predicate Assigned(line: seq<byte>, key: seq<byte>, value: seq<byte>) {
    Assigns(line, key) && Acceptable(value) && line[|key| + 1..] == Quote(value)
  }

  /** Exactly one line assigns to `key`, and it assigns this value. */
  ghost predicate Once(lines: seq<seq<byte>>, key: seq<byte>, value: seq<byte>) {
    exists i :: 0 <= i < |lines| && Assigned(lines[i], key, value) &&
      forall j :: 0 <= j < |lines| && j != i ==> !Assigns(lines[j], key)
  }

  /** What the loop knows of one key after the lines so far. */
  ghost predicate Known(lines: seq<seq<byte>>, key: seq<byte>, found: Option<seq<byte>>) {
    if found.None? then forall j :: 0 <= j < |lines| ==> !Assigns(lines[j], key) else Once(lines, key, found.value)
  }

  lemma KnownSkip(lines: seq<seq<byte>>, line: seq<byte>, key: seq<byte>, found: Option<seq<byte>>)
    requires Known(lines, key, found) && !Assigns(line, key)
    ensures Known(lines + [line], key, found)
  {
    if found.Some? {
      var i :| 0 <= i < |lines| && Assigned(lines[i], key, found.value) && forall j :: 0 <= j < |lines| && j != i ==> !Assigns(lines[j], key);
      assert (lines + [line])[i] == lines[i];
    }
  }

  lemma KnownNew(lines: seq<seq<byte>>, line: seq<byte>, key: seq<byte>, value: seq<byte>)
    requires Known(lines, key, None) && Assigned(line, key, value)
    ensures Known(lines + [line], key, Some(value))
  {
    assert (lines + [line])[|lines|] == line;
  }

  /** identity_value on one line; a second assignment or a value that does not decode is an error. */
  method IdentityValue(found: Option<seq<byte>>, line: seq<byte>, key: seq<byte>, ghost lines: seq<seq<byte>>)
    returns (ok: bool, next: Option<seq<byte>>)
    requires 0 !in line && Known(lines, key, found)
    ensures ok ==> Known(lines + [line], key, next)
    ensures !ok ==> Assigns(line, key) && (found.Some? || forall v: seq<byte> :: !Assigned(line, key, v))
  {
    hide Acceptable, Quote;
    next := found;
    if !Assigns(line, key) {
      KnownSkip(lines, line, key, found);
      return true, found;
    }
    if found.Some? {
      return false, found;
    }
    assert 0 !in line[|key| + 1..];
    next := QuotedValue(line[|key| + 1..]);
    ok := next.Some?;
    if ok {
      KnownNew(lines, line, key, next.value);
    }
  }

  datatype Identity = Identity(compatible: seq<byte>, version: seq<byte>, build: seq<byte>)

  const COMPATIBLE := "RAUC_MF_COMPATIBLE"
  const VERSION := "RAUC_MF_VERSION"
  const BUILD := "RAUC_MF_BUILD"

  ghost predicate IdentityOf(lines: seq<seq<byte>>, id: Identity) {
    Once(lines, Ascii(COMPATIBLE), id.compatible) && Once(lines, Ascii(VERSION), id.version) && Once(lines, Ascii(BUILD), id.build)
  }

  lemma NotOnce(lines: seq<seq<byte>>, n: nat, key: seq<byte>, found: Option<seq<byte>>, v: seq<byte>)
    requires n < |lines| && Known(lines[..n], key, found) && Assigns(lines[n], key)
    requires found.Some? || forall w: seq<byte> :: !Assigned(lines[n], key, w)
    ensures !Once(lines, key, v)
  {
    if found.Some? {
      var k :| 0 <= k < n && Assigned(lines[..n][k], key, found.value);
      assert Assigns(lines[k], key);
    }
  }

  /** bundle_identity_parse on the lines of the output. */
  method BundleIdentity(lines: seq<seq<byte>>) returns (id: Option<Identity>)
    requires forall l <- lines :: 0 !in l
    ensures id.Some? ==> IdentityOf(lines, id.value)
    ensures id.None? ==> forall i: Identity :: !IdentityOf(lines, i)
  {
    hide Ascii, Known, Once, Acceptable, Quote;
    var compatible, version, build := None, None, None;
    NothingKnown(Ascii(COMPATIBLE));
    NothingKnown(Ascii(VERSION));
    NothingKnown(Ascii(BUILD));
    var n := 0;
    while n < |lines|
      invariant 0 <= n <= |lines|
      invariant Known(lines[..n], Ascii(COMPATIBLE), compatible)
      invariant Known(lines[..n], Ascii(VERSION), version)
      invariant Known(lines[..n], Ascii(BUILD), build)
    {
      assert lines[n] in lines;
      assert lines[..n] + [lines[n]] == lines[..n + 1];
      ghost var before := lines[..n];
      var ok, next := IdentityValue(compatible, lines[n], Ascii(COMPATIBLE), before);
      if !ok {
        forall i: Identity ensures !IdentityOf(lines, i) { NotOnce(lines, n, Ascii(COMPATIBLE), compatible, i.compatible); }
        return None;
      }
      compatible := next;
      ok, next := IdentityValue(version, lines[n], Ascii(VERSION), before);
      if !ok {
        forall i: Identity ensures !IdentityOf(lines, i) { NotOnce(lines, n, Ascii(VERSION), version, i.version); }
        return None;
      }
      version := next;
      ok, next := IdentityValue(build, lines[n], Ascii(BUILD), before);
      if !ok {
        forall i: Identity ensures !IdentityOf(lines, i) { NotOnce(lines, n, Ascii(BUILD), build, i.build); }
        return None;
      }
      build := next;
      n := n + 1;
    }
    assert lines[..|lines|] == lines;
    if compatible.None? || version.None? || build.None? {
      forall i: Identity ensures !IdentityOf(lines, i) {
        Missing(lines, Ascii(COMPATIBLE), compatible, i.compatible);
        Missing(lines, Ascii(VERSION), version, i.version);
        Missing(lines, Ascii(BUILD), build, i.build);
      }
      return None;
    }
    Found(lines, Ascii(COMPATIBLE), compatible.value);
    Found(lines, Ascii(VERSION), version.value);
    Found(lines, Ascii(BUILD), build.value);
    id := Some(Identity(compatible.value, version.value, build.value));
  }

  lemma NothingKnown(key: seq<byte>)
    ensures Known([], key, None)
  {
  }

  lemma Found(lines: seq<seq<byte>>, key: seq<byte>, v: seq<byte>)
    requires Known(lines, key, Some(v))
    ensures Once(lines, key, v)
  {
  }

  lemma Missing(lines: seq<seq<byte>>, key: seq<byte>, found: Option<seq<byte>>, v: seq<byte>)
    requires Known(lines, key, found)
    ensures found.None? ==> !Once(lines, key, v)
  {
  }
}
