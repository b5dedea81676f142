/**
 Long reads of a GATT value (gatt_read.c): a snapshot taken at offset zero is handed out in slices.
 A central reads at the running offset until a response is shorter than its MTU allows (Bluetooth
 Core Specification Vol 3 Part F section 3.4.4.5).
 */
module GattRead {
  import opened Bytes
  import opened ProtocolKeys
  import opened Wrappers

  const DEFAULT_MTU := 23
  const MAX_MTU := 517
  const TTL := 30_000_000
  const VALUE_MAX := 512
  const OWNER_CAP := 64
  const PATH_CAP := 512

  /** Whose read it is: BlueZ's unique name, peer, characteristic and connection epoch. */
  datatype Identity = Identity(owner: string, peer: string, characteristic: nat, epoch: nat)

  datatype Held = Held(identity: Identity, expires: int, value: seq<byte>)

  type Snapshot = Option<Held>

  predicate BeginOk(id: Identity, value: seq<byte>, now: int) {
    id.owner != "" && |id.owner| < OWNER_CAP && ObjectPath(id.peer) && id.epoch != 0 && now > 0 && |value| <= VALUE_MAX
  }

  /** g_strlcpy into the path buffer; the callers' paths fit. */
  function Stored(id: Identity): (r: Identity)
    ensures |id.peer| < PATH_CAP ==> r == id
  {
    if |id.peer| < PATH_CAP then id else id.(peer := id.peer[..PATH_CAP - 1])
  }

  /** egp_gatt_read_snapshot_begin: whatever was there is gone in any case. */
  function Begun(id: Identity, value: seq<byte>, now: int): Snapshot {
    if BeginOk(id, value, now) then Some(Held(Stored(id), now + TTL, value)) else None
  }

  predicate Expired(s: Snapshot, now: int) {
    s.Some? && (now <= 0 || now >= s.value.expires)
  }

  predicate MtuOk(mtu: nat) {
    mtu == 0 || DEFAULT_MTU <= mtu <= MAX_MTU
  }

  /** The most bytes one response carries. */
  function Limit(mtu: nat): (n: int)
    requires MtuOk(mtu)
    ensures 22 <= n <= 516
  {
    (if mtu != 0 then mtu else DEFAULT_MTU) - 1
  }

  datatype Reply = Slice(bytes: seq<byte>) | BadMtu | BadOffset

  predicate Usable(s: Snapshot, id: Identity, now: int) {
    s.Some? && !Expired(s, now) && id.epoch != 0 && s.value.identity == id
  }

  /** egp_gatt_read_snapshot_slice: the response. */
  function Response(s: Snapshot, id: Identity, offset: nat, mtu: nat, now: int): Reply {
    if !MtuOk(mtu) then BadMtu
    else if !Usable(s, id, now) || offset > |s.value.value| then BadOffset
    else
      var rest := s.value.value[offset..];
      Slice(if |rest| < Limit(mtu) then rest else rest[..Limit(mtu)])
  }

  /** ... and what is left of the snapshot: a stale or foreign read and a short response end it. */
  function Remaining(s: Snapshot, id: Identity, offset: nat, mtu: nat, now: int): Snapshot {
    if !MtuOk(mtu) then s
    else if !Usable(s, id, now) then None
    else if offset > |s.value.value| then s
    else if |s.value.value| - offset < Limit(mtu) then None
    else s
  }

  // ---------------------------------------------------------------- the client's loop

  /** One request of the client: the MTU in force and the time it arrives. */
  datatype Ask = Ask(mtu: nat, now: int)

  datatype Outcome = Read(bytes: seq<byte>, requests: nat) | Failed

  /** Read at the running offset until a response is short. */
  function ReadOn(s: Snapshot, id: Identity, offset: nat, asks: seq<Ask>): Outcome
    decreases |asks|
  {
    if asks == [] then Failed
    else
      var r := Response(s, id, offset, asks[0].mtu, asks[0].now);
      if !r.Slice? then Failed
      else if |r.bytes| < Limit(asks[0].mtu) then Read(r.bytes, 1)
      else
        match ReadOn(Remaining(s, id, offset, asks[0].mtu, asks[0].now), id, offset + |r.bytes|, asks[1..])
        case Read(bytes, n) => Read(r.bytes + bytes, n + 1)
        case Failed => Failed
  }

  predicate InTime(asks: seq<Ask>, expires: int) {
    forall a <- asks :: MtuOk(a.mtu) && 0 < a.now < expires
  }

  /** Enough requests, whatever their MTUs, read the rest of the value exactly. */
  lemma {:induction false} ReadsTheRest(h: Held, offset: nat, asks: seq<Ask>)
    requires h.identity.epoch != 0 && offset <= |h.value| && InTime(asks, h.expires)
    requires 22 * |asks| > |h.value| - offset
    ensures var o := ReadOn(Some(h), h.identity, offset, asks);
      o.Read? && o.bytes == h.value[offset..] && 22 * (o.requests - 1) <= |h.value| - offset
    decreases |asks|
  {
    var r := Response(Some(h), h.identity, offset, asks[0].mtu, asks[0].now);
    assert asks[0] in asks;
    if |r.bytes| == Limit(asks[0].mtu) {
      assert forall a <- asks[1..] :: a in asks;
      ReadsTheRest(h, offset + |r.bytes|, asks[1..]);
      assert h.value[offset..] == r.bytes + h.value[offset + |r.bytes|..];
    }
  }

  /** A complete read after a begin gives back the captured bytes. */
  lemma LongRead(id: Identity, value: seq<byte>, begun: int, asks: seq<Ask>)
    requires BeginOk(id, value, begun) && |id.peer| < PATH_CAP && InTime(asks, begun + TTL) && 22 * |asks| > |value|
    ensures ReadOn(Begun(id, value, begun), id, 0, asks).Read?
    ensures ReadOn(Begun(id, value, begun), id, 0, asks).bytes == value
  {
    ReadsTheRest(Held(id, begun + TTL, value), 0, asks);
  }

  lemma QuotientIs(n: int, d: int, q: int, r: int)
    requires d > 0 && 0 <= r < d && n == q * d + r
    ensures n / d == q
  {
    var p, t := n / d, n % d;
    assert n == p * d + t && 0 <= t < d;
    assert (p - q) * d == r - t;
    if p - q >= 1 {
      ProductAtLeast(p - q, d);
    } else if p - q <= -1 {
      ProductAtLeast(q - p, d);
    }
  }

  lemma ProductAtLeast(a: int, d: int)
    requires a >= 1 && d > 0
    ensures a * d >= d
  {
  }

  lemma DivStep(n: nat, d: nat)
    requires d > 0 && n >= d
    ensures n / d == (n - d) / d + 1
  {
    var q, r := (n - d) / d, (n - d) % d;
    assert n - d == q * d + r;
    assert (q + 1) * d == q * d + d;
    QuotientIs(n, d, q + 1, r);
  }

  /** Responses needed for `length` bytes, the last of them short. */
  function Needed(length: nat, limit: nat): (n: nat)
    requires limit > 0
    ensures n >= 1
  {
    length / limit + 1
  }

  lemma NeededStep(length: nat, limit: nat)
    requires limit > 0
    ensures Needed(length, limit) == if length < limit then 1 else Needed(length - limit, limit) + 1
  {
    if length < limit {
      QuotientIs(length, limit, 0, length);
    } else {
      DivStep(length, limit);
    }
  }

  /** With one MTU throughout it takes floor(len / (mtu - 1)) + 1 requests. */
  lemma {:induction false} RequestCount(h: Held, offset: nat, asks: seq<Ask>, mtu: nat)
    requires h.identity.epoch != 0 && offset <= |h.value| && MtuOk(mtu) && InTime(asks, h.expires)
    requires forall a <- asks :: a.mtu == mtu
    requires |asks| >= Needed(|h.value| - offset, Limit(mtu))
    ensures var o := ReadOn(Some(h), h.identity, offset, asks); o.Read? && o.requests == Needed(|h.value| - offset, Limit(mtu))
    decreases |asks|
  {
    hide Needed;
    var d, n := Limit(mtu), |h.value| - offset;
    NeededStep(n, d);
    assert asks[0] in asks;
    if n >= d {
      assert forall a <- asks[1..] :: a in asks;
      RequestCount(h, offset + d, asks[1..], mtu);
    }
  }

  // ---------------------------------------------------------------- with others around

  /** Everything that touches the one snapshot of the daemon. */
  datatype Event =
    | Begin(identity: Identity, value: seq<byte>, now: int)
    | ReadSlice(identity: Identity, offset: nat, mtu: nat, now: int)
    | Clear

  function Next(s: Snapshot, e: Event): Snapshot {
    match e
    case Begin(id, value, now) => Begun(id, value, now)
    case ReadSlice(id, offset, mtu, now) => Remaining(s, id, offset, mtu, now)
    case Clear => None
  }

  function After(s: Snapshot, events: seq<Event>): Snapshot {
    if events == [] then s else Next(After(s, events[..|events| - 1]), events[|events| - 1])
  }

  /** Since this read began, its snapshot is as it was, or another's, or gone. */
  lemma {:induction false} OwnOrNone(id: Identity, value: seq<byte>, begun: int, events: seq<Event>)
    requires BeginOk(id, value, begun) && |id.peer| < PATH_CAP
    requires forall e <- events :: e.Begin? ==> Stored(e.identity) != id
    ensures var s := After(Begun(id, value, begun), events);
      s.Some? && s.value.identity == id ==> s == Begun(id, value, begun)
  {
    if events != [] {
      OwnOrNone(id, value, begun, events[..|events| - 1]);
    }
  }

  /**
   A response is a slice of the value captured at this read's own begin, within its lifetime, or an
   error; whatever other reads, clears and foreign begins came in between.
   */
  lemma NeverMixed(id: Identity, value: seq<byte>, begun: int, events: seq<Event>, offset: nat, mtu: nat, now: int)
    requires BeginOk(id, value, begun) && |id.peer| < PATH_CAP
    requires forall e <- events :: e.Begin? ==> Stored(e.identity) != id
    ensures var r := Response(After(Begun(id, value, begun), events), id, offset, mtu, now);
      r.Slice? ==> offset <= |value| && 0 < now < begun + TTL && r == Response(Begun(id, value, begun), id, offset, mtu, now)
  {
    hide After;
    OwnOrNone(id, value, begun, events);
  }

  /** The responses of a client that got one to every request. */
  datatype Got = Got(offset: nat, mtu: nat, bytes: seq<byte>)

  predicate Consecutive(got: seq<Got>, offset: nat) {
    got != [] ==> got[0].offset == offset && MtuOk(got[0].mtu) &&
                  (if |got| == 1 then |got[0].bytes| < Limit(got[0].mtu)
                   else |got[0].bytes| == Limit(got[0].mtu) && Consecutive(got[1..], offset + |got[0].bytes|))
  }

  function Joined(got: seq<Got>): seq<byte> {
    if got == [] then [] else got[0].bytes + Joined(got[1..])
  }

  predicate FromValue(g: Got, value: seq<byte>) {
    MtuOk(g.mtu) && g.offset <= |value| &&
    g.bytes == if |value| - g.offset < Limit(g.mtu) then value[g.offset..] else value[g.offset..g.offset + Limit(g.mtu)]
  }

  /** Responses at running offsets up to a short one join to the value, if each is a slice of it. */
  lemma {:induction false} JoinedIsValue(got: seq<Got>, value: seq<byte>, offset: nat)
    requires got != [] && Consecutive(got, offset) && forall g <- got :: FromValue(g, value)
    ensures offset <= |value| && Joined(got) == value[offset..]
    decreases |got|
  {
    assert FromValue(got[0], value);
    if |got| > 1 {
      JoinedIsValue(got[1..], value, offset + |got[0].bytes|);
      assert value[offset..] == got[0].bytes + value[offset + |got[0].bytes|..];
    } else {
      assert Joined(got[1..]) == [];
    }
  }

  /** Event `p` of the history is the request answered by `g`. */
  predicate Answered(s: Snapshot, id: Identity, events: seq<Event>, p: nat, g: Got) {
    && p < |events| && events[p].ReadSlice? && events[p].identity == id
    && events[p].offset == g.offset && events[p].mtu == g.mtu
    && Response(After(s, events[..p]), id, g.offset, g.mtu, events[p].now) == Slice(g.bytes)
  }

  /**
   A client whose requests stand anywhere among other events, and all got a response, up to a short
   one: it has the value captured at its own begin, read within its lifetime.
   */
  lemma InterleavedRead(id: Identity, value: seq<byte>, begun: int, events: seq<Event>, asked: seq<nat>, got: seq<Got>)
    requires BeginOk(id, value, begun) && |id.peer| < PATH_CAP
    requires forall e <- events :: e.Begin? ==> Stored(e.identity) != id
    requires |asked| == |got| > 0 && Consecutive(got, 0)
    requires forall k :: 0 <= k < |got| ==> Answered(Begun(id, value, begun), id, events, asked[k], got[k])
    ensures Joined(got) == value
    ensures forall k :: 0 <= k < |got| ==> asked[k] < |events| && events[asked[k]].ReadSlice? && 0 < events[asked[k]].now < begun + TTL
  {
    hide After, Joined, Consecutive;
    forall k | 0 <= k < |got|
      ensures FromValue(got[k], value) && events[asked[k]].ReadSlice? && 0 < events[asked[k]].now < begun + TTL
    {
      assert Answered(Begun(id, value, begun), id, events, asked[k], got[k]);
      var before := events[..asked[k]];
      assert forall e <- before :: e in events;
      NeverMixed(id, value, begun, before, got[k].offset, got[k].mtu, events[asked[k]].now);
    }
    JoinedIsValue(got, value, 0);
  }

  // ---------------------------------------------------------------- the object

  class ReadSnapshot {
    var valid: bool
    var identity: Identity
    var expiresAt: int
    var value: seq<byte>

    function Value(): Snapshot
      reads this
    {
      if valid then Some(Held(identity, expiresAt, value)) else None
    }

    constructor ()
      ensures Value() == None
    {
      valid, identity, expiresAt, value := false, Identity("", "", 0, 0), 0, [];
    }

    method Clear()
      modifies this
      ensures Value() == None
    {
      valid, identity, expiresAt, value := false, Identity("", "", 0, 0), 0, [];
    }

    method Begin(id: Identity, bytes: seq<byte>, now: int) returns (ok: bool)
      modifies this
      ensures ok == BeginOk(id, bytes, now) && Value() == Begun(id, bytes, now)
    {
      Clear();
      ok := BeginOk(id, bytes, now);
      if ok {
        valid, identity, expiresAt, value := true, Stored(id), now + TTL, bytes;
      }
    }

    method Slice(id: Identity, offset: nat, mtu: nat, now: int) returns (reply: Reply)
      modifies this
      ensures reply == Response(old(Value()), id, offset, mtu, now)
      ensures Value() == Remaining(old(Value()), id, offset, mtu, now)
    {
      if mtu != 0 && (mtu < DEFAULT_MTU || mtu > MAX_MTU) {
        return BadMtu;
      }
      if !valid || now <= 0 || now >= expiresAt || id.epoch == 0 || identity != id {
        Clear();
        return BadOffset;
      }
      if offset > |value| {
        return BadOffset;
      }
      var responseMax := (if mtu != 0 then mtu else DEFAULT_MTU) - 1;
      var rest := |value| - offset;
      var count := if rest < responseMax then rest else responseMax;
      reply := Reply.Slice(value[offset..offset + count]);
      assert value[offset..][..count] == value[offset..offset + count];
      if count < responseMax {
        Clear();
      }
    }
  }
}
