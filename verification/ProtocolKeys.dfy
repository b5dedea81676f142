/**
 The keys and identities of the BLE protocol engine (protocol.c): the text keys of its tables,
 the peer a key names, the digest of a request, and the preimage of the scoped request id.
 None of them confuses two different things.
 */
module ProtocolKeys {
  import opened Bytes
  import opened Utf8

  datatype Characteristic = Provisioning | Control

  function Ordinal(c: Characteristic): nat {
    match c case Provisioning => 0 case Control => 1
  }

  predicate PathChar(c: char) {
    'a' <= c <= 'z' || 'A' <= c <= 'Z' || '0' <= c <= '9' || c == '_'
  }

  /** g_variant_is_object_path. */
  predicate ObjectPath(s: string) {
    && s != "" && s[0] == '/'
    && (forall i :: 0 <= i < |s| ==> PathChar(s[i]) || s[i] == '/')
    && (forall i :: 0 < i < |s| ==> !(s[i] == '/' && s[i - 1] == '/'))
    && (|s| > 1 ==> s[|s| - 1] != '/')
  }

  type TransactionId = id: seq<byte> | |id| == 16 witness seq(16, i => 0)

  // ---------------------------------------------------------------- transaction id text

  function HexDigit(d: nat): (c: char)
    requires d < 16
    ensures c != ':' && c != '-'
  {
    if d < 10 then (d + '0' as int) as char else (d - 10 + 'a' as int) as char
  }

  lemma HexDigitInjective(d: nat, e: nat)
    requires d < 16 && e < 16 && HexDigit(d) == HexDigit(e)
    ensures d == e
  {
  }

  function Hex(bytes: seq<byte>): (s: string)
    ensures |s| == 2 * |bytes|
    ensures forall i :: 0 <= i < |s| ==> s[i] != ':' && s[i] != '-'
  {
    if bytes == [] then "" else Hex(bytes[..|bytes| - 1]) + [HexDigit(bytes[|bytes| - 1] / 16), HexDigit(bytes[|bytes| - 1] % 16)]
  }

  lemma {:induction false} HexInjective(a: seq<byte>, b: seq<byte>)
    requires Hex(a) == Hex(b)
    ensures a == b
  {
    assert |a| == |b|;
    if a != [] {
      var n := |a| - 1;
      assert Hex(a)[..2 * n] == Hex(a[..n]) && Hex(b)[..2 * n] == Hex(b[..n]);
      HexInjective(a[..n], b[..n]);
      HexDigitInjective(a[n] / 16, b[n] / 16);
      HexDigitInjective(a[n] % 16, b[n] % 16);
      assert a == a[..n] + [a[n]] && b == b[..n] + [b[n]];
    }
  }

  /** egp_transaction_id_format: 8-4-4-4-12 hexadecimal digits. */
  function FormatId(id: TransactionId): (s: string)
    ensures |s| == 36 && forall i :: 0 <= i < 36 ==> s[i] != ':'
  {
    Hex(id[..4]) + "-" + Hex(id[4..6]) + "-" + Hex(id[6..8]) + "-" + Hex(id[8..10]) + "-" + Hex(id[10..])
  }

  /** Two digits for every byte, in order. */
  lemma {:induction false} HexAt(bytes: seq<byte>, i: nat)
    requires i < |bytes|
    ensures Hex(bytes)[2 * i] == "0123456789abcdef"[bytes[i] / 16] && Hex(bytes)[2 * i + 1] == "0123456789abcdef"[bytes[i] % 16]
  {
    var n := |bytes| - 1;
    if i < n {
      HexAt(bytes[..n], i);
    }
  }

  lemma {:induction false} HexJoin(a: seq<byte>, b: seq<byte>)
    ensures Hex(a + b) == Hex(a) + Hex(b)
  {
    if b == [] {
      assert a + b == a;
    } else {
      var n := |b| - 1;
      assert (a + b)[..|a| + n] == a + b[..n];
      HexJoin(a, b[..n]);
    }
  }

  /** The identifier in the form of RFC 4122: its bytes in order, and a dash after the 4th, 6th, 8th and 10th. */
  lemma FormatIdText(id: TransactionId)
    ensures var s := FormatId(id);
            && s[..8] + s[9..13] + s[14..18] + s[19..23] + s[24..] == Hex(id)
            && forall i :: 0 <= i < 36 ==> (s[i] == '-' <==> i in {8, 13, 18, 23})
  {
    hide Hex;
    var s := FormatId(id);
    var a, b, c, d, e := id[..4], id[4..6], id[6..8], id[8..10], id[10..];
    HexJoin(a, b);
    HexJoin(a + b, c);
    HexJoin(a + b + c, d);
    HexJoin(a + b + c + d, e);
    assert id == a + b + c + d + e;
    assert s[..8] == Hex(a) && s[9..13] == Hex(b) && s[14..18] == Hex(c) && s[19..23] == Hex(d) && s[24..] == Hex(e);
  }

  lemma FormatIdInjective(a: TransactionId, b: TransactionId)
    requires FormatId(a) == FormatId(b)
    ensures a == b
  {
    hide Hex;
    var s, t := FormatId(a), FormatId(b);
    assert s[..8] == Hex(a[..4]) && t[..8] == Hex(b[..4]);
    assert s[9..13] == Hex(a[4..6]) && t[9..13] == Hex(b[4..6]);
    assert s[14..18] == Hex(a[6..8]) && t[14..18] == Hex(b[6..8]);
    assert s[19..23] == Hex(a[8..10]) && t[19..23] == Hex(b[8..10]);
    assert s[24..] == Hex(a[10..]) && t[24..] == Hex(b[10..]);
    HexInjective(a[..4], b[..4]);
    HexInjective(a[4..6], b[4..6]);
    HexInjective(a[6..8], b[6..8]);
    HexInjective(a[8..10], b[8..10]);
    HexInjective(a[10..], b[10..]);
    assert a == a[..4] + a[4..6] + a[6..8] + a[8..10] + a[10..];
    assert b == b[..4] + b[4..6] + b[6..8] + b[8..10] + b[10..];
  }

  // ---------------------------------------------------------------- table keys

  function OrdinalText(c: Characteristic): (s: string)
    ensures |s| == 1
  {
    match c case Provisioning => "0" case Control => "1"
  }

  function IncompleteKey(peer: string, c: Characteristic): string {
    OrdinalText(c) + ":" + peer
  }

  function CompletedKey(peer: string, c: Characteristic, id: TransactionId): string {
    OrdinalText(c) + ":" + peer + ":" + FormatId(id)
  }

  lemma IncompleteKeyInjective(p: string, c: Characteristic, q: string, d: Characteristic)
    requires IncompleteKey(p, c) == IncompleteKey(q, d)
    ensures p == q && c == d
  {
    var s, t := IncompleteKey(p, c), IncompleteKey(q, d);
    assert s[0] == t[0] && s[2..] == p && t[2..] == q;
  }

  /** Two completed keys are the same text only for the same peer, characteristic and transaction. */
  lemma CompletedKeyInjective(p: string, c: Characteristic, i: TransactionId, q: string, d: Characteristic, j: TransactionId)
    requires CompletedKey(p, c, i) == CompletedKey(q, d, j)
    ensures p == q && c == d && i == j
  {
    hide FormatId;
    var s, t := CompletedKey(p, c, i), CompletedKey(q, d, j);
    assert |p| == |q| && s[0] == t[0];
    assert s[2..2 + |p|] == p && t[2..2 + |p|] == q;
    assert s[3 + |p|..] == FormatId(i) && t[3 + |p|..] == FormatId(j);
    FormatIdInjective(i, j);
  }

  /** strchr(text, ':'), or |text|. */
  function FirstColon(text: string): (k: nat)
    ensures k <= |text| && (k < |text| ==> text[k] == ':')
    ensures forall i :: 0 <= i < k ==> text[i] != ':'
  {
    if text == "" || text[0] == ':' then 0 else 1 + FirstColon(text[1..])
  }

  /** strrchr(text, ':'), or -1. */
  function LastColon(text: string): (k: int)
    ensures -1 <= k < |text| && (k >= 0 ==> text[k] == ':')
    ensures forall i :: k < i < |text| ==> text[i] != ':'
  {
    if text == "" then -1 else if text[|text| - 1] == ':' then |text| - 1 else LastColon(text[..|text| - 1])
  }

  /** The test of egp_protocol_drop_peer: the text between the outer colons is the peer path. */
  predicate KeyNamesPeer(text: string, peer: string) {
    var first, last := FirstColon(text), LastColon(text);
    && first < |text| && last > first + 1 && text[first + 1..last] == peer
  }

  /** That test finds the peer of a key, and no other. */
  lemma KeyNamesItsPeer(peer: string, c: Characteristic, id: TransactionId, other: string)
    requires peer != ""
    ensures KeyNamesPeer(CompletedKey(peer, c, id), other) <==> other == peer
  {
    hide FormatId, FirstColon, LastColon;
    var s := CompletedKey(peer, c, id);
    assert s[0] != ':' && s[1] == ':' && s[2 + |peer|] == ':';
    assert forall i :: 3 + |peer| <= i < |s| ==> s[i] == FormatId(id)[i - 3 - |peer|];
    assert FirstColon(s) == 1;
    assert LastColon(s) == 2 + |peer|;
    assert s[2..2 + |peer|] == peer;
  }

  // ---------------------------------------------------------------- digests and scoped ids

  lemma CodesInjective(p: string, q: string)
    requires Codes(p) == Codes(q)
    ensures p == q
  {
    forall i | 0 <= i < |p| ensures p[i] == q[i] {
      assert Codes(p)[i] == Codes(q)[i];
    }
  }

  /** What digest_request hashes. SHA-256 is taken to be injective, so this stands for the digest. */
  function RequestDigest(peer: string, c: Characteristic, opcode: byte, data: seq<byte>): seq<int>
    requires |data| < 0x1_0000
  {
    Codes(peer) + [Ordinal(c), opcode] + Be16(|data|) + data
  }

  /** The digest identifies the request, although the path is not length-prefixed. */
  lemma RequestDigestInjective(p: string, c: Characteristic, o: byte, x: seq<byte>,
                               q: string, d: Characteristic, r: byte, y: seq<byte>)
    requires |x| < 0x1_0000 && |y| < 0x1_0000 && ObjectPath(p) && ObjectPath(q)
    requires RequestDigest(p, c, o, x) == RequestDigest(q, d, r, y)
    ensures p == q && c == d && o == r && x == y
  {
    var s, t := RequestDigest(p, c, o, x), RequestDigest(q, d, r, y);
    // the ordinal ends the path: no path character has such a code
    assert s[|p|] == Ordinal(c) < 2 && t[|q|] == Ordinal(d) < 2;
    assert forall i :: 0 <= i < |q| ==> t[i] == q[i] as int >= '/' as int;
    assert forall i :: 0 <= i < |p| ==> s[i] == p[i] as int >= '/' as int;
    assert |p| == |q|;
    assert s[..|p|] == Codes(p) && t[..|p|] == Codes(q);
    CodesInjective(p, q);
    assert s[|p| + 1] == o && t[|p| + 1] == r;
    assert s[|p| + 4..] == x && t[|p| + 4..] == y;
  }

  /** checksum_field: a four-byte length, then the bytes. */
  function Field(data: seq<int>): seq<int> {
    BigEndian(|data|, 4) + data
  }

  function Fields(parts: seq<seq<int>>): seq<int> {
    if parts == [] then [] else Field(parts[0]) + Fields(parts[1..])
  }

  lemma {:induction false} FieldsInjective(a: seq<seq<int>>, b: seq<seq<int>>)
    requires |a| == |b| && Fields(a) == Fields(b)
    requires forall i :: 0 <= i < |a| ==> |a[i]| < Power256(4) && |b[i]| < Power256(4)
    ensures a == b
  {
    if a != [] {
      var s := Fields(a);
      assert s[..4] == BigEndian(|a[0]|, 4) && Fields(b)[..4] == BigEndian(|b[0]|, 4);
      BigEndianInjective(|a[0]|, |b[0]|, 4);
      var n := 4 + |a[0]|;
      assert s[4..n] == a[0] && Fields(b)[4..n] == b[0];
      assert s[n..] == Fields(a[1..]) && Fields(b)[n..] == Fields(b[1..]);
      FieldsInjective(a[1..], b[1..]);
      assert a == [a[0]] + a[1..] && b == [b[0]] + b[1..];
    }
  }

  datatype Scope = Scope(session: string, windowEpoch: nat, connectionEpoch: nat, peer: string,
                         characteristic: Characteristic, opcode: byte, id: TransactionId)

  const DOMAIN := "edgeguard-provisioningd/agent-request-id/v1"

  /** What egp_protocol_scoped_request_id hashes. */
  function ScopePreimage(s: Scope): seq<int> {
    Fields([Codes(DOMAIN), Codes(s.session), BigEndian(s.windowEpoch, 8), BigEndian(s.connectionEpoch, 8),
            Codes(s.peer), [Ordinal(s.characteristic)], [s.opcode], s.id])
  }

  predicate ScopeFits(s: Scope) {
    && |s.session| < Power256(4) && |s.peer| < Power256(4)
    && s.windowEpoch < Power256(8) && s.connectionEpoch < Power256(8)
  }

  /** Two requests share the preimage of their Agent id only if every field of their scopes agrees. */
  lemma ScopeInjective(s: Scope, t: Scope)
    requires ScopeFits(s) && ScopeFits(t) && ScopePreimage(s) == ScopePreimage(t)
    ensures s == t
  {
    hide BigEndian, Fields;
    var a := [Codes(DOMAIN), Codes(s.session), BigEndian(s.windowEpoch, 8), BigEndian(s.connectionEpoch, 8),
              Codes(s.peer), [Ordinal(s.characteristic)], [s.opcode], s.id];
    var b := [Codes(DOMAIN), Codes(t.session), BigEndian(t.windowEpoch, 8), BigEndian(t.connectionEpoch, 8),
              Codes(t.peer), [Ordinal(t.characteristic)], [t.opcode], t.id];
    FieldBound();
    FieldsInjective(a, b);
    assert a[1] == b[1] && a[2] == b[2] && a[3] == b[3] && a[4] == b[4] && a[5] == b[5] && a[6] == b[6] && a[7] == b[7];
    CodesInjective(s.session, t.session);
    CodesInjective(s.peer, t.peer);
    BigEndianInjective(s.windowEpoch, t.windowEpoch, 8);
    BigEndianInjective(s.connectionEpoch, t.connectionEpoch, 8);
    assert a[5][0] == b[5][0] && a[6][0] == b[6][0];
  }

  lemma FieldBound()
    ensures |DOMAIN| < 64 < Power256(4)
  {
    assert Power256(1) == 256;
    assert Power256(2) == 256 * 256;
    assert Power256(3) == 256 * Power256(2);
    assert Power256(4) == 256 * Power256(3);
  }
}
