/**
 What the BLE protocol engine (protocol.c) does to its three tables, as relations on their values:
 fragments merge into an incomplete transaction, transactions end, time out and are answered from a
 replay cache. Hash-table iteration order is left open wherever the C code's result depends on it.

 Table keys are the pairs and triples that their texts encode; ProtocolKeys shows that the texts
 keep them apart.
 */
module Reassembly {
  import opened Bytes
  import opened ProtocolKeys
  import opened Frame
  import opened Wrappers
  import Decimal
  import Utf8

  const MAX_INCOMPLETE := 8
  const CACHE_LIMIT := 64
  const IDLE := 30_000_000
  const LIFETIME := 60_000_000
  const REPLAY_TTL := 600_000_000
  const PATH_CAP := 512

  /** The monotonic clock, in microseconds, stays this far from the int64 ceiling. */
  const CLOCK_MAX := Decimal.INT64_MAX - REPLAY_TTL

  datatype Slot = Slot(peer: string, characteristic: Characteristic)
  datatype Tag = Tag(slot: Slot, id: TransactionId)

  datatype Incomplete = Incomplete(id: TransactionId, opcode: byte, total: nat, data: seq<byte>, received: seq<bool>,
                                   count: nat, endSeen: bool, created: int, touched: int)

  datatype Completed = Completed(digest: seq<int>, result: seq<byte>, expires: int, completedAt: int)

  datatype Tables = Tables(incomplete: map<Slot, Incomplete>, completed: map<Tag, Completed>, expired: map<Tag, int>)

  // ---------------------------------------------------------------- one transaction

  function Marks(received: seq<bool>): nat {
    if received == [] then 0
    else Marks(received[..|received| - 1]) + if received[|received| - 1] then 1 else 0
  }

  lemma {:induction false} MarksSet(received: seq<bool>, i: nat)
    requires i < |received| && !received[i]
    ensures Marks(received[i := true]) == Marks(received) + 1
  {
    var n := |received| - 1;
    if i < n {
      MarksSet(received[..n], i);
      assert received[i := true][..n] == received[..n][i := true];
    } else {
      assert received[i := true][..n] == received[..n];
    }
  }

  /** A count of marks below `n` reaches `n` exactly when none is missing. */
  lemma {:induction false} MarksFull(received: seq<bool>, n: nat)
    requires n <= |received| && forall i :: n <= i < |received| ==> !received[i]
    ensures Marks(received) <= n
    ensures Marks(received) == n <==> forall i :: 0 <= i < n ==> received[i]
  {
    if received != [] {
      var m := |received| - 1;
      MarksFull(received[..m], if n <= m then n else m);
      assert n == |received| && Marks(received) == n ==> received[m] && forall i :: 0 <= i < m ==> received[..m][i] == received[i];
    }
  }

  lemma {:induction false} NoMarks(n: nat)
    ensures Marks(seq(n, _ => false)) == 0
  {
    if n > 0 {
      NoMarks(n - 1);
      assert seq(n, _ => false)[..n - 1] == seq(n - 1, _ => false);
    }
  }

  /** The buffers and the counter agree; END has never been seen by a transaction at rest. */
  ghost predicate TransactionOk(t: Incomplete) {
    && |t.data| == MAX_JSON && |t.received| == MAX_JSON && t.total <= MAX_JSON
    && t.count == Marks(t.received)
    && (forall i :: t.total <= i < MAX_JSON ==> !t.received[i])
    && !t.endSeen
  }

  function Fresh(f: Frame, now: int): Incomplete {
    Incomplete(f.id, f.opcode, f.total, seq(MAX_JSON, _ => 0), seq(MAX_JSON, _ => false), 0, false, now, now)
  }

  lemma FreshOk(f: Frame, now: int)
    requires f.total <= MAX_JSON
    ensures TransactionOk(Fresh(f, now))
  {
    NoMarks(MAX_JSON);
  }

  predicate InBuffer(t: Incomplete, offset: nat, payload: seq<byte>) {
    |t.data| == MAX_JSON && |t.received| == MAX_JSON && offset + |payload| <= MAX_JSON
  }

  /** No byte of the slice contradicts one already received. */
  predicate Fits(t: Incomplete, offset: nat, payload: seq<byte>)
    requires InBuffer(t, offset, payload)
  {
    forall i :: 0 <= i < |payload| && t.received[offset + i] ==> t.data[offset + i] == payload[i]
  }

  function Absorbed(t: Incomplete, offset: nat, payload: seq<byte>): Incomplete
    requires InBuffer(t, offset, payload)
  {
    var received := t.received[..offset] + seq(|payload|, _ => true) + t.received[offset + |payload|..];
    t.(data := t.data[..offset] + payload + t.data[offset + |payload|..], received := received, count := Marks(received))
  }

  /** One more byte: the step of the merge loop. */
  lemma AbsorbByte(t: Incomplete, offset: nat, payload: seq<byte>, i: nat)
    requires InBuffer(t, offset, payload) && t.count == Marks(t.received) && i < |payload|
    ensures var now, next := Absorbed(t, offset, payload[..i]), Absorbed(t, offset, payload[..i + 1]);
      && |now.received| == |now.data| == MAX_JSON
      && now.received[offset + i] == t.received[offset + i] && now.data[offset + i] == t.data[offset + i]
      && (!t.received[offset + i] ==>
        next == now.(data := now.data[offset + i := payload[i]], received := now.received[offset + i := true], count := now.count + 1))
      && (t.received[offset + i] && t.data[offset + i] == payload[i] ==> next == now)
  {
    var now, next := Absorbed(t, offset, payload[..i]), Absorbed(t, offset, payload[..i + 1]);
    AbsorbReceived(t, offset, payload, i);
    AbsorbData(t, offset, payload, i);
    if !t.received[offset + i] {
      MarksSet(now.received, offset + i);
    } else if t.data[offset + i] == payload[i] {
      assert now.received[offset + i := true] == now.received && now.data[offset + i := payload[i]] == now.data;
    }
  }

  lemma AbsorbReceived(t: Incomplete, offset: nat, payload: seq<byte>, i: nat)
    requires InBuffer(t, offset, payload) && i < |payload|
    ensures var now, next := Absorbed(t, offset, payload[..i]).received, Absorbed(t, offset, payload[..i + 1]).received;
      |now| == MAX_JSON && now[offset + i] == t.received[offset + i] && next == now[offset + i := true]
  {
    hide Marks;
  }

  lemma AbsorbData(t: Incomplete, offset: nat, payload: seq<byte>, i: nat)
    requires InBuffer(t, offset, payload) && i < |payload|
    ensures var now, next := Absorbed(t, offset, payload[..i]).data, Absorbed(t, offset, payload[..i + 1]).data;
      |now| == MAX_JSON && now[offset + i] == t.data[offset + i] && next == now[offset + i := payload[i]]
  {
    hide Marks;
  }

  lemma FitsByte(t: Incomplete, offset: nat, payload: seq<byte>, i: nat)
    requires InBuffer(t, offset, payload) && i < |payload| && Fits(t, offset, payload[..i])
    ensures Fits(t, offset, payload[..i + 1]) <==> (t.received[offset + i] ==> t.data[offset + i] == payload[i])
    ensures t.received[offset + i] && t.data[offset + i] != payload[i] ==> !Fits(t, offset, payload)
  {
  }

  lemma AbsorbedOk(t: Incomplete, offset: nat, payload: seq<byte>)
    requires TransactionOk(t) && offset + |payload| <= t.total
    ensures TransactionOk(Absorbed(t, offset, payload))
  {
  }

  // ---------------------------------------------------------------- time

  predicate Stale(t: Incomplete, now: int) {
    now - t.touched >= IDLE || now - t.created >= LIFETIME
  }

  function Alive(incomplete: map<Slot, Incomplete>, now: int): map<Slot, Incomplete> {
    map s | s in incomplete && !Stale(incomplete[s], now) :: incomplete[s]
  }

  function StaleAmong(incomplete: map<Slot, Incomplete>, slots: set<Slot>, now: int): set<Slot> {
    set s | s in slots && s in incomplete && Stale(incomplete[s], now)
  }

  /** The timeout markers that the stale transactions of `slots` leave. */
  function Markers(incomplete: map<Slot, Incomplete>, slots: set<Slot>, now: int): map<Tag, int> {
    map s | s in StaleAmong(incomplete, slots, now) :: Tag(s, incomplete[s].id) := now + LIFETIME
  }

  function Marked(expired: map<Tag, int>, incomplete: map<Slot, Incomplete>, slots: set<Slot>, now: int): map<Tag, int> {
    expired + Markers(incomplete, slots, now)
  }

  ghost predicate Within<K, V>(part: map<K, V>, whole: map<K, V>) {
    forall k <- part :: k in whole && part[k] == whole[k]
  }

  /** remember_timeout, from `before` to `after`: the marker goes in, an older one may have to go out. */
  ghost predicate Remembered(before: map<Tag, int>, after: map<Tag, int>, tag: Tag, now: int) {
    && Within(after, before[tag := now + LIFETIME])
    && tag in after && after[tag] == now + LIFETIME
    && |after| <= CACHE_LIMIT
    && (|before| < CACHE_LIMIT ==> after == before[tag := now + LIFETIME])
  }

  function Unelapsed(expired: map<Tag, int>, now: int): map<Tag, int> {
    map t | t in expired && now < expired[t] :: expired[t]
  }

  /** egp_protocol_expire: stale transactions become timeout markers; elapsed markers and results go. */
  ghost predicate Swept(pre: Tables, post: Tables, now: int) {
    var marked := Unelapsed(Marked(pre.expired, pre.incomplete, pre.incomplete.Keys, now), now);
    && post.incomplete == Alive(pre.incomplete, now)
    && post.completed == (map t | t in pre.completed && now < pre.completed[t].expires :: pre.completed[t])
    && Within(post.expired, marked) && |post.expired| <= CACHE_LIMIT
    && (|pre.expired| + |StaleAmong(pre.incomplete, pre.incomplete.Keys, now)| <= CACHE_LIMIT ==> post.expired == marked)
  }

  // ---------------------------------------------------------------- one frame

  datatype Request = Request(slot: Slot, id: TransactionId, opcode: byte, json: seq<byte>)

  datatype Reply =
    | Refused(code: Refusal)
    | Pending
    | Complete(request: Request)
    | Replay(request: Request, cached: seq<byte>)

  /** What becomes of the transaction of the frame's slot, and what the caller is told. */
  datatype Decision = Decision(slot: Option<Incomplete>, reply: Reply)

  predicate TextOk(json: seq<byte>) {
    Utf8.Valid(json) && 0 !in json
  }

  function DigestOf(r: Request): seq<int>
    requires |r.json| <= MAX_JSON
  {
    RequestDigest(r.slot.peer, r.slot.characteristic, r.opcode, r.json)
  }

  /** complete_transaction */
  function Finish(completed: map<Tag, Completed>, slot: Slot, t: Incomplete): (reply: Reply)
    requires t.total <= |t.data| == MAX_JSON
  {
    var request := Request(slot, t.id, t.opcode, t.data[..t.total]);
    var tag := Tag(slot, t.id);
    if !TextOk(request.json) then Refused(PayloadInvalid)
    else if tag !in completed then Complete(request)
    else if completed[tag].digest != DigestOf(request) then Refused(ReplayRejected)
    else Replay(request, completed[tag].result)
  }

  /** The frame against the transaction it found or started: merge, then conflict, gap, wait or finish. */
  function Merge(completed: map<Tag, Completed>, slot: Slot, t: Incomplete, f: Frame, now: int): Decision
    requires InBuffer(t, f.offset, f.payload) && t.total <= MAX_JSON
  {
    if !Fits(t, f.offset, f.payload) then Decision(None, Refused(FragmentConflict))
    else
      var next := Absorbed(t, f.offset, f.payload).(touched := now, endSeen := t.endSeen || f.end);
      if !next.endSeen then Decision(Some(next), Pending)
      else if next.count != next.total then Decision(None, Refused(FragmentConflict))
      else Decision(None, Finish(completed, slot, next))
  }

  /** egp_protocol_accept from the look-up of the timeout marker on. */
  function Decide(swept: Tables, slot: Slot, f: Frame, now: int): Decision
    requires TablesOk(swept) && Legal(slot.characteristic, f)
  {
    var found := if slot in swept.incomplete then Some(swept.incomplete[slot]) else None;
    if Tag(slot, f.id) in swept.expired then Decision(found, Refused(TransactionTimeout))
    else if found.None? && !f.start then Decision(None, Refused(FragmentConflict))
    else if found.None? && |swept.incomplete| >= MAX_INCOMPLETE then Decision(None, Refused(Busy))
    else if found.Some? && (found.value.id != f.id || found.value.opcode != f.opcode || found.value.total != f.total) then
      Decision(found, Refused(Busy))
    else Merge(swept.completed, slot, if found.Some? then found.value else Fresh(f, now), f, now)
  }

  /** prune_completed_limit: at the limit, one of the entries completed first goes. */
  ghost predicate Pruned(before: map<Tag, Completed>, after: map<Tag, Completed>) {
    if |before| < CACHE_LIMIT then after == before
    else exists t <- before :: after == before - {t} && forall u <- before :: before[t].completedAt <= before[u].completedAt
  }

  ghost predicate Inserted(before: map<Tag, Completed>, after: map<Tag, Completed>, request: Request, now: int)
    requires |request.json| <= MAX_JSON
  {
    var tag := Tag(request.slot, request.id);
    && tag in after && after[tag] == Completed(DigestOf(request), [], now + REPLAY_TTL, now)
    && Pruned(before, after - {tag})
  }

  predicate InputOk(peer: string, now: int) {
    |peer| < PATH_CAP && ObjectPath(peer) && now > 0
  }

  /** The frame meets a stale transaction of its own slot and its own id. */
  predicate OwnTimeout(pre: Tables, slot: Slot, f: Frame, now: int) {
    slot in pre.incomplete && Stale(pre.incomplete[slot], now) && pre.incomplete[slot].id == f.id
  }

  /** From the swept tables to the final ones. */
  ghost predicate Settled(swept: Tables, post: Tables, slot: Slot, f: Frame, now: int, reply: Reply)
    requires TablesOk(swept) && Legal(slot.characteristic, f)
  {
    var d := Decide(swept, slot, f, now);
    && reply == d.reply
    && post.incomplete == (if d.slot.Some? then swept.incomplete[slot := d.slot.value] else swept.incomplete - {slot})
    && post.expired == swept.expired
    && (if reply.Complete? && |reply.request.json| <= MAX_JSON then Inserted(swept.completed, post.completed, reply.request, now)
        else post.completed == swept.completed)
  }

  /** egp_protocol_accept; `swept` is the state between egp_protocol_expire and the rest. */
  ghost predicate Accepts(pre: Tables, swept: Tables, post: Tables, slot: Slot, value: seq<byte>, now: int, reply: Reply) {
    if !InputOk(slot.peer, now) then post == pre && reply == Refused(PayloadInvalid)
    else match Parse(slot.characteristic, value)
      case Bad(code) => post == pre && reply == Refused(code)
      case Good(f) =>
        if OwnTimeout(pre, slot, f, now) then
          && reply == Refused(TransactionTimeout)
          && post.incomplete == pre.incomplete - {slot} && post.completed == pre.completed
          && Remembered(pre.expired, post.expired, Tag(slot, f.id), now)
        else
          && Swept(pre, swept, now) && TablesOk(swept) && Legal(slot.characteristic, f)
          && Settled(swept, post, slot, f, now, reply)
  }

  // ---------------------------------------------------------------- what every operation keeps

  ghost predicate TablesOk(t: Tables) {
    && |t.incomplete| <= MAX_INCOMPLETE && |t.completed| <= CACHE_LIMIT && |t.expired| <= CACHE_LIMIT
    && (forall s <- t.incomplete :: TransactionOk(t.incomplete[s]))
    && (forall t' <- t.completed :: t.completed[t'].completedAt <= CLOCK_MAX)
  }

  lemma SubmapSize<K, V>(part: map<K, V>, whole: map<K, V>)
    requires Within(part, whole)
    ensures |part| <= |whole|
  {
    SubsetSize(part.Keys, whole.Keys);
  }

  lemma {:induction false} SubsetSize<K>(part: set<K>, whole: set<K>)
    requires part <= whole
    ensures |part| <= |whole|
    decreases part
  {
    if k :| k in part {
      SubsetSize(part - {k}, whole - {k});
    }
  }

  lemma SweptOk(pre: Tables, post: Tables, now: int)
    requires TablesOk(pre) && Swept(pre, post, now)
    ensures TablesOk(post)
  {
    hide TransactionOk;
    SubmapSize(post.incomplete, pre.incomplete);
    SubmapSize(post.completed, pre.completed);
  }

  /** A decision keeps the slot's transaction sound, and only a first START adds one. */
  lemma DecideOk(swept: Tables, slot: Slot, f: Frame, now: int)
    requires TablesOk(swept) && Legal(slot.characteristic, f)
    ensures var d := Decide(swept, slot, f, now);
      && (d.slot.Some? ==> TransactionOk(d.slot.value))
      && (d.slot.Some? && slot !in swept.incomplete ==> |swept.incomplete| < MAX_INCOMPLETE && d.reply.Pending?)
      && (d.reply.Complete? ==>
        |d.reply.request.json| <= MAX_JSON && Tag(slot, f.id) !in swept.completed && d.reply.request.slot == slot && d.reply.request.id == f.id)
  {
    hide Utf8.Valid, Nonzero, Marks;
    FreshOk(f, now);
    var t := if slot in swept.incomplete then swept.incomplete[slot] else Fresh(f, now);
    if t.total == f.total {
      AbsorbedOk(t, f.offset, f.payload);
    }
  }
}
