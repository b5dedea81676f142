/**
 Runs of the BLE protocol engine: fragments of several peers, clock ticks, published results and
 disconnections in any order. What comes out is what went in, and an honest sender gets through.
 */
module ReassemblyRuns {
  import opened Bytes
  import opened ProtocolKeys
  import opened Frame
  import opened Reassembly
  import opened Wrappers

  /** One call of the engine. `swept` is the state right after its sweep of timed-out entries. */
  datatype Step =
    | Write(slot: Slot, value: seq<byte>, now: int, reply: Reply, swept: Tables)
    | Tick(now: int)
    | Publish(tag: Tag, result: seq<byte>, now: int, ok: bool, swept: Tables)
    | DropPeer(peer: string)
    | DropAll

  const EMPTY := Tables(map[], map[], map[])

  /** egp_protocol_drop_peer */
  function WithoutPeer(t: Tables, peer: string): Tables {
    Tables(map s | s in t.incomplete && s.peer != peer :: t.incomplete[s], t.completed,
           map g | g in t.expired && g.slot.peer != peer :: t.expired[g])
  }

  predicate ResultOk(result: seq<byte>, now: int) {
    now > 0 && |result| <= MAX_JSON && TextOk(result)
  }

  /** egp_protocol_cache_result_id */
  ghost predicate Cached(pre: Tables, swept: Tables, post: Tables, tag: Tag, result: seq<byte>, now: int, ok: bool) {
    if !ResultOk(result, now) then post == pre && !ok
    else
      && Swept(pre, swept, now) && ok == (tag in swept.completed)
      && post == if ok then swept.(completed := swept.completed[tag := swept.completed[tag].(result := result, expires := now + REPLAY_TTL)])
                 else swept
  }

  ghost predicate StepRel(step: Step, pre: Tables, post: Tables) {
    match step
    case Write(slot, value, now, reply, swept) => now <= CLOCK_MAX && Accepts(pre, swept, post, slot, value, now, reply)
    case Tick(now) => if now <= 0 then post == pre else Swept(pre, post, now)
    case Publish(tag, result, now, ok, swept) => Cached(pre, swept, post, tag, result, now, ok)
    case DropPeer(peer) => post == WithoutPeer(pre, peer)
    case DropAll => post == EMPTY
  }

  ghost predicate StepAt(states: seq<Tables>, steps: seq<Step>, k: nat)
    requires k < |steps| && |states| == |steps| + 1
  {
    StepRel(steps[k], states[k], states[k + 1])
  }

  ghost predicate Run(states: seq<Tables>, steps: seq<Step>) {
    |states| == |steps| + 1 && forall k :: 0 <= k < |steps| ==> StepAt(states, steps, k)
  }

  // ---------------------------------------------------------------- the invariant of the tables

  lemma MapPlusSize<K, V>(m: map<K, V>, k: K, v: V)
    ensures |m[k := v]| == |m| + if k in m then 0 else 1
  {
    assert m[k := v].Keys == m.Keys + {k};
  }

  lemma PutOk(swept: Tables, post: Tables, slot: Slot, next: Option<Incomplete>)
    requires TablesOk(swept) && post.expired == swept.expired
    requires post.incomplete == if next.Some? then swept.incomplete[slot := next.value] else swept.incomplete - {slot}
    requires next.Some? ==> TransactionOk(next.value) && (slot !in swept.incomplete ==> |swept.incomplete| < MAX_INCOMPLETE)
    requires |post.completed| <= CACHE_LIMIT && forall t <- post.completed :: post.completed[t].completedAt <= CLOCK_MAX
    ensures TablesOk(post)
  {
    hide TransactionOk;
    if next.Some? {
      MapPlusSize(swept.incomplete, slot, next.value);
    } else {
      SubmapSize(post.incomplete, swept.incomplete);
    }
  }

  lemma SettledOk(swept: Tables, post: Tables, slot: Slot, f: Frame, now: int, reply: Reply)
    requires TablesOk(swept) && Legal(slot.characteristic, f) && now <= CLOCK_MAX
    requires Settled(swept, post, slot, f, now, reply)
    ensures TablesOk(post)
  {
    hide Decide, Legal, Inserted, TransactionOk, Settled;
    DecideOk(swept, slot, f, now);
    SettledParts(swept, post, slot, f, now, reply);
    if reply.Complete? {
      InsertOk(swept.completed, post.completed, reply.request, now);
    }
    PutOk(swept, post, slot, Decide(swept, slot, f, now).slot);
  }

  lemma SettledParts(swept: Tables, post: Tables, slot: Slot, f: Frame, now: int, reply: Reply)
    requires TablesOk(swept) && Legal(slot.characteristic, f) && Settled(swept, post, slot, f, now, reply)
    ensures var d := Decide(swept, slot, f, now);
      && reply == d.reply && post.expired == swept.expired
      && post.incomplete == (if d.slot.Some? then swept.incomplete[slot := d.slot.value] else swept.incomplete - {slot})
      && (reply.Complete? ==> |reply.request.json| <= MAX_JSON && Inserted(swept.completed, post.completed, reply.request, now))
      && (!reply.Complete? ==> post.completed == swept.completed)
  {
    hide Decide, Legal, Inserted;
    DecideOk(swept, slot, f, now);
  }

  lemma WriteOk(pre: Tables, swept: Tables, post: Tables, slot: Slot, value: seq<byte>, now: int, reply: Reply)
    requires TablesOk(pre) && now <= CLOCK_MAX && Accepts(pre, swept, post, slot, value, now, reply)
    ensures TablesOk(post)
  {
    hide TransactionOk, Swept, Settled, Legal, Marked, Parse, ObjectPath, TablesOk;
    if InputOk(slot.peer, now) && Parse(slot.characteristic, value).Good? {
      var f := Parse(slot.characteristic, value).frame;
      if OwnTimeout(pre, slot, f, now) {
        OwnTimeoutOk(pre, post, slot, f, now);
      } else {
        SettledOk(swept, post, slot, f, now, reply);
      }
    }
  }

  lemma OwnTimeoutOk(pre: Tables, post: Tables, slot: Slot, f: Frame, now: int)
    requires TablesOk(pre) && post.incomplete == pre.incomplete - {slot} && post.completed == pre.completed
    requires Remembered(pre.expired, post.expired, Tag(slot, f.id), now)
    ensures TablesOk(post)
  {
    hide TransactionOk;
    SubmapSize(post.incomplete, pre.incomplete);
  }

  lemma InsertOk(before: map<Tag, Completed>, after: map<Tag, Completed>, r: Request, now: int)
    requires |r.json| <= MAX_JSON && now <= CLOCK_MAX && Inserted(before, after, r, now)
    requires |before| <= CACHE_LIMIT && forall t <- before :: before[t].completedAt <= CLOCK_MAX
    ensures |after| <= CACHE_LIMIT && forall t <- after :: after[t].completedAt <= CLOCK_MAX
  {
    var tag := Tag(r.slot, r.id);
    var rest := after - {tag};
    assert after == rest[tag := after[tag]];
    MapPlusSize(rest, tag, after[tag]);
    if |before| >= CACHE_LIMIT {
      var t :| t in before && rest == before - {t};
      assert before == rest[t := before[t]];
      MapPlusSize(rest, t, before[t]);
    }
    assert forall t <- after :: t == tag || (t in rest && t in before && after[t] == before[t]);
  }

  /** The table sizes, the buffers and the counters stay sound. */
  lemma StepOk(step: Step, pre: Tables, post: Tables)
    requires TablesOk(pre) && StepRel(step, pre, post)
    ensures TablesOk(post)
  {
    hide TransactionOk, Accepts, Swept;
    match step
    case Write(slot, value, now, reply, swept) => WriteOk(pre, swept, post, slot, value, now, reply);
    case Tick(now) => if now > 0 { SweptOk(pre, post, now); }
    case Publish(tag, result, now, ok, swept) =>
      if ResultOk(result, now) {
        SweptOk(pre, swept, now);
        if ok {
          MapPlusSize(swept.completed, tag, post.completed[tag]);
        }
      }
    case DropPeer(peer) =>
      SubmapSize(post.incomplete, pre.incomplete);
      SubmapSize(post.expired, pre.expired);
    case DropAll =>
  }

  /** At every point of every run: at most 8/64/64 entries, every counter equals its marks. */
  lemma {:induction false} RunOk(states: seq<Tables>, steps: seq<Step>, k: nat)
    requires Run(states, steps) && states[0] == EMPTY && k <= |steps|
    ensures TablesOk(states[k])
  {
    hide StepRel, TablesOk;
    if k > 0 {
      RunOk(states, steps, k - 1);
      assert StepAt(states, steps, k - 1);
      StepOk(steps[k - 1], states[k - 1], states[k]);
    } else {
      EmptyOk();
    }
  }

  lemma EmptyOk()
    ensures TablesOk(EMPTY)
  {
  }

  /** A refused frame leaves nothing new behind, except its own timeout marker. */
  lemma RefusalLeavesNothing(pre: Tables, swept: Tables, post: Tables, slot: Slot, value: seq<byte>, now: int, code: Refusal)
    requires Accepts(pre, swept, post, slot, value, now, Refused(code))
    ensures Within(post.incomplete, pre.incomplete) && Within(post.completed, pre.completed)
  {
    hide Settled, Parse, Legal, TablesOk, ObjectPath, Remembered, Marked;
    if InputOk(slot.peer, now) && Parse(slot.characteristic, value).Good? {
      var f := Parse(slot.characteristic, value).frame;
      if !OwnTimeout(pre, slot, f, now) {
        DecideRefused(swept, post, slot, f, now, code);
      }
    }
  }

  lemma DecideRefused(swept: Tables, post: Tables, slot: Slot, f: Frame, now: int, code: Refusal)
    requires TablesOk(swept) && Legal(slot.characteristic, f) && Settled(swept, post, slot, f, now, Refused(code))
    ensures Within(post.incomplete, swept.incomplete) && post.completed == swept.completed
  {
    hide Fits, Absorbed, Finish, Legal, Fresh;
  }

  // ---------------------------------------------------------------- what an output consists of

  datatype Slice = Slice(offset: nat, payload: seq<byte>)

  predicate Covers(s: Slice, i: int) {
    s.offset <= i < s.offset + |s.payload|
  }

  ghost predicate Covered(slices: seq<Slice>, i: int) {
    exists s <- slices :: Covers(s, i)
  }

  predicate Agrees(s: Slice, data: seq<byte>) {
    s.offset + |s.payload| <= |data| && data[s.offset..s.offset + |s.payload|] == s.payload
  }

  /** The slices of a transaction once the frame of `step` has joined it; an unknown slot starts afresh. */
  function Joined(step: Step, held: seq<Slice>): seq<Slice>
    requires step.Write?
  {
    var f := Parse(step.slot.characteristic, step.value);
    (if step.slot in step.swept.incomplete then held else []) +
    (if f.Good? then [Slice(f.frame.offset, f.frame.payload)] else [])
  }

  function After(step: Step, slot: Slot, held: seq<Slice>): seq<Slice> {
    if step.Write? && step.slot == slot && step.reply.Pending? then Joined(step, held) else held
  }

  /** The slices held by the transaction of `slot`, if it has one, after the first `k` steps. */
  function Slices(steps: seq<Step>, k: nat, slot: Slot): seq<Slice>
    requires k <= |steps|
  {
    if k == 0 then [] else After(steps[k - 1], slot, Slices(steps, k - 1, slot))
  }

  /** The transaction's buffer holds exactly these slices. */
  ghost predicate Holds(t: Incomplete, slices: seq<Slice>) {
    && |t.data| == |t.received| == MAX_JSON
    && (forall s <- slices :: Agrees(s, t.data) && s.offset + |s.payload| <= t.total)
    && (forall i :: 0 <= i < MAX_JSON ==> (t.received[i] <==> Covered(slices, i)))
  }

  lemma HoldsMore(t: Incomplete, slices: seq<Slice>, offset: nat, payload: seq<byte>)
    requires InBuffer(t, offset, payload) && Fits(t, offset, payload) && Holds(t, slices)
    requires offset + |payload| <= t.total
    ensures Holds(Absorbed(t, offset, payload), slices + [Slice(offset, payload)])
  {
    hide Marks;
    var u, more := Absorbed(t, offset, payload), slices + [Slice(offset, payload)];
    assert more[|slices|] == Slice(offset, payload);
    forall s <- more ensures Agrees(s, u.data) && s.offset + |s.payload| <= t.total {
      if s in slices {
        assert Agrees(s, t.data);
        forall i | 0 <= i < |s.payload| ensures u.data[s.offset + i] == s.payload[i] {
          assert t.data[s.offset..s.offset + |s.payload|][i] == s.payload[i];
          assert Covers(s, s.offset + i);
          assert t.received[s.offset + i];
          if Covers(Slice(offset, payload), s.offset + i) {
            assert t.data[offset + (s.offset + i - offset)] == payload[s.offset + i - offset];
          }
        }
      }
    }
    forall i | 0 <= i < MAX_JSON ensures u.received[i] <==> Covered(more, i) {
      if u.received[i] && t.received[i] {
        var s :| s in slices && Covers(s, i);
        assert s in more;
      } else if u.received[i] {
        assert Covers(Slice(offset, payload), i);
      }
    }
  }

  /** The text agrees with every slice, and every byte of it came in one. */
  ghost predicate MadeOf(json: seq<byte>, slices: seq<Slice>) {
    && (forall s <- slices :: Agrees(s, json))
    && (forall i :: 0 <= i < |json| ==> Covered(slices, i))
  }

  lemma FullHolds(t: Incomplete, slices: seq<Slice>)
    requires Holds(t, slices) && t.total <= MAX_JSON && t.count == t.total == Marks(t.received)
    requires forall i :: t.total <= i < MAX_JSON ==> !t.received[i]
    ensures MadeOf(t.data[..t.total], slices)
  {
    MarksFull(t.received, t.total);
    assert forall i :: 0 <= i < t.total ==> t.received[i] && Covered(slices, i);
    forall s <- slices ensures Agrees(s, t.data[..t.total]) {
      assert Agrees(s, t.data);
      assert t.data[..t.total][s.offset..s.offset + |s.payload|] == t.data[s.offset..s.offset + |s.payload|];
    }
  }

  lemma MergeHolds(completed: map<Tag, Completed>, slot: Slot, t: Incomplete, f: Frame, now: int, held: seq<Slice>)
    requires TransactionOk(t) && t.total == f.total && Legal(slot.characteristic, f) && Holds(t, held)
    ensures var d := Merge(completed, slot, t, f, now);
      && (d.slot.Some? ==> Holds(d.slot.value, held + [Slice(f.offset, f.payload)]))
      && (d.reply.Complete? || d.reply.Replay? ==> MadeOf(d.reply.request.json, held + [Slice(f.offset, f.payload)]))
  {
    hide Marks, TextOk, Nonzero, MadeOf;
    if Fits(t, f.offset, f.payload) {
      AbsorbedOk(t, f.offset, f.payload);
      HoldsMore(t, held, f.offset, f.payload);
      var next := Absorbed(t, f.offset, f.payload).(touched := now, endSeen := t.endSeen || f.end);
      if next.count == next.total {
        FullHolds(next, held + [Slice(f.offset, f.payload)]);
      }
    }
  }

  lemma DecideHolds(swept: Tables, slot: Slot, f: Frame, now: int, held: seq<Slice>)
    requires TablesOk(swept) && Legal(slot.characteristic, f)
    requires slot in swept.incomplete ==> Holds(swept.incomplete[slot], held)
    ensures var d := Decide(swept, slot, f, now);
      var more := (if slot in swept.incomplete then held else []) + [Slice(f.offset, f.payload)];
      && (d.slot.Some? && d.reply.Pending? ==> Holds(d.slot.value, more))
      && (d.slot.Some? && !d.reply.Pending? ==> slot in swept.incomplete && d.slot.value == swept.incomplete[slot])
      && (d.reply.Complete? || d.reply.Replay? ==> MadeOf(d.reply.request.json, more))
  {
    hide Merge, MadeOf, Marks;
    FreshOk(f, now);
    assert Holds(Fresh(f, now), []);
    var t := if slot in swept.incomplete then swept.incomplete[slot] else Fresh(f, now);
    if t.total == f.total {
      hide Holds, TransactionOk;
      MergeHolds(swept.completed, slot, t, f, now, if slot in swept.incomplete then held else []);
      MergeRefuses(swept.completed, slot, t, f, now);
    }
  }

  lemma MergeRefuses(completed: map<Tag, Completed>, slot: Slot, t: Incomplete, f: Frame, now: int)
    requires TransactionOk(t) && t.total == f.total && Legal(slot.characteristic, f)
    ensures var d := Merge(completed, slot, t, f, now); d.slot.Some? <==> d.reply.Pending?
  {
    hide Marks, TextOk, Nonzero, Fits, Absorbed;
  }

  lemma WriteHolds(step: Step, pre: Tables, post: Tables, held: seq<Slice>)
    requires step.Write? && TablesOk(pre) && StepRel(step, pre, post)
    requires step.slot in pre.incomplete ==> Holds(pre.incomplete[step.slot], held)
    ensures step.slot in post.incomplete ==> Holds(post.incomplete[step.slot], After(step, step.slot, held))
    ensures step.reply.Complete? || step.reply.Replay? ==> MadeOf(step.reply.request.json, Joined(step, held))
    ensures forall s <- post.incomplete :: s != step.slot ==> s in pre.incomplete && post.incomplete[s] == pre.incomplete[s]
  {
    hide Decide, Settled, TransactionOk, Holds, MadeOf, Remembered, Marked, TablesOk, Legal, Parse, ObjectPath;
    if InputOk(step.slot.peer, step.now) && Parse(step.slot.characteristic, step.value).Good? {
      var f := Parse(step.slot.characteristic, step.value).frame;
      if !OwnTimeout(pre, step.slot, f, step.now) {
        DecideHolds(step.swept, step.slot, f, step.now, held);
        SettledParts(step.swept, post, step.slot, f, step.now, step.reply);
      }
    }
  }

  lemma OtherHolds(step: Step, pre: Tables, post: Tables)
    requires !step.Write? && StepRel(step, pre, post)
    ensures Within(post.incomplete, pre.incomplete)
  {
    hide Marked, TextOk;
  }

  lemma {:induction false} TransactionHolds(states: seq<Tables>, steps: seq<Step>, k: nat, slot: Slot)
    requires Run(states, steps) && states[0] == EMPTY && k <= |steps|
    ensures slot in states[k].incomplete ==> Holds(states[k].incomplete[slot], Slices(steps, k, slot))
  {
    hide StepRel, Holds, TablesOk;
    if k > 0 {
      var step := steps[k - 1];
      assert StepAt(states, steps, k - 1);
      TransactionHolds(states, steps, k - 1, slot);
      if step.Write? {
        RunOk(states, steps, k - 1);
        TransactionHolds(states, steps, k - 1, step.slot);
        WriteHolds(step, states[k - 1], states[k], Slices(steps, k - 1, step.slot));
      } else {
        OtherHolds(step, states[k - 1], states[k]);
      }
    }
  }

  /** Over every run, an accepted message agrees with every slice its transaction received, and has no other byte. */
  lemma OutputIsTheSlices(states: seq<Tables>, steps: seq<Step>, k: nat)
    requires Run(states, steps) && states[0] == EMPTY && k < |steps| && steps[k].Write?
    requires steps[k].reply.Complete? || steps[k].reply.Replay?
    ensures MadeOf(steps[k].reply.request.json, Joined(steps[k], Slices(steps, k, steps[k].slot)))
  {
    hide StepRel, Holds, TablesOk, MadeOf;
    assert StepAt(states, steps, k);
    RunOk(states, steps, k);
    TransactionHolds(states, steps, k, steps[k].slot);
    WriteHolds(steps[k], states[k], states[k + 1], Slices(steps, k, steps[k].slot));
  }

  // ---------------------------------------------------------------- timeouts

  /**
   A frame that comes 30 s after the last one of its transaction, or 60 s after its first, is refused as timed
   out; the transaction is gone, and its id stays refused for another 60 s.
   */
  lemma LateIsRefused(pre: Tables, swept: Tables, post: Tables, slot: Slot, value: seq<byte>, now: int, reply: Reply)
    requires Accepts(pre, swept, post, slot, value, now, reply) && |slot.peer| < PATH_CAP && ObjectPath(slot.peer) && now > 0
    requires Parse(slot.characteristic, value).Good? && slot in pre.incomplete
    requires var t, f := pre.incomplete[slot], Parse(slot.characteristic, value).frame;
      t.id == f.id && (now >= t.touched + 30_000_000 || now >= t.created + 60_000_000)
    ensures var tag := Tag(slot, Parse(slot.characteristic, value).frame.id);
      && reply == Refused(TransactionTimeout) && slot !in post.incomplete
      && tag in post.expired && post.expired[tag] == now + 60_000_000
  {
    hide Swept, Settled, Parse, Legal, ObjectPath;
  }

  /** While its timeout is held against it, no frame of the id is accepted, not even a new START. */
  lemma TimedOutStays(pre: Tables, swept: Tables, post: Tables, slot: Slot, value: seq<byte>, now: int, reply: Reply)
    requires TablesOk(pre) && Accepts(pre, swept, post, slot, value, now, reply) && |slot.peer| < PATH_CAP && ObjectPath(slot.peer) && now > 0
    requires Parse(slot.characteristic, value).Good?
    requires var tag := Tag(slot, Parse(slot.characteristic, value).frame.id); tag in swept.expired
    ensures reply == Refused(TransactionTimeout)
  {
    hide Swept, Parse, Legal, ObjectPath, TablesOk, Merge, Marks;
  }

  /** A sweep takes every transaction that is late, and leaves the others alone; its markers refuse them for 60 s. */
  lemma SweepTakesTheLate(pre: Tables, post: Tables, now: int, slot: Slot)
    requires TablesOk(pre) && Swept(pre, post, now) && slot in pre.incomplete
    ensures var t := pre.incomplete[slot];
      slot in post.incomplete <==> now < t.touched + 30_000_000 && now < t.created + 60_000_000
    ensures slot in post.incomplete ==> post.incomplete[slot] == pre.incomplete[slot]
    ensures slot !in post.incomplete && |pre.expired| + |pre.incomplete| <= CACHE_LIMIT ==>
              var tag := Tag(slot, pre.incomplete[slot].id); tag in post.expired && post.expired[tag] == now + 60_000_000
  {
    hide TransactionOk;
    var late := StaleAmong(pre.incomplete, pre.incomplete.Keys, now);
    SubsetSize(late, pre.incomplete.Keys);
    if slot in late {
      MarkerStands(pre, now, slot);
    }
  }

  lemma MarkerStands(pre: Tables, now: int, slot: Slot)
    requires slot in StaleAmong(pre.incomplete, pre.incomplete.Keys, now)
    ensures var tag, marked := Tag(slot, pre.incomplete[slot].id), Unelapsed(Marked(pre.expired, pre.incomplete, pre.incomplete.Keys, now), now);
      tag in marked && marked[tag] == now + LIFETIME
  {
    hide TransactionOk;
    var tag, markers := Tag(slot, pre.incomplete[slot].id), Markers(pre.incomplete, pre.incomplete.Keys, now);
    assert tag in markers && markers[tag] == now + LIFETIME;
  }

  /** Only a START opens a transaction; only an END hands one over, and only one whose text is valid UTF-8 without NUL. */
  lemma OpensAndEnds(pre: Tables, swept: Tables, post: Tables, slot: Slot, value: seq<byte>, now: int, reply: Reply)
    requires TablesOk(pre) && Accepts(pre, swept, post, slot, value, now, reply) && !reply.Refused?
    ensures Parse(slot.characteristic, value).Good?
    ensures var f := Parse(slot.characteristic, value).frame;
      && (slot !in swept.incomplete ==> f.start)
      && (reply.Pending? <==> !f.end)
      && (reply.Pending? <==> slot in post.incomplete)
      && (!reply.Pending? ==> TextOk(reply.request.json) && reply.request.id == f.id && reply.request.opcode == f.opcode && |reply.request.json| == f.total)
  {
    hide Swept, Settled, Parse, TextOk, Marks, DigestOf, ObjectPath, Nonzero;
    var f := Parse(slot.characteristic, value).frame;
    SettledParts(swept, post, slot, f, now, reply);
    DecideEnds(swept, slot, f, now);
  }

  lemma DecideEnds(swept: Tables, slot: Slot, f: Frame, now: int)
    requires TablesOk(swept) && Legal(slot.characteristic, f) && !Decide(swept, slot, f, now).reply.Refused?
    ensures var d := Decide(swept, slot, f, now);
      && (slot !in swept.incomplete ==> f.start)
      && (d.reply.Pending? <==> !f.end) && (d.reply.Pending? <==> d.slot.Some?)
      && (!d.reply.Pending? ==>
           TextOk(d.reply.request.json) && d.reply.request.id == f.id && d.reply.request.opcode == f.opcode && |d.reply.request.json| == f.total)
  {
    hide TextOk, Marks, DigestOf, Nonzero;
    FreshOk(f, now);
    var t := if slot in swept.incomplete then swept.incomplete[slot] else Fresh(f, now);
    if t.total == f.total {
      AbsorbedOk(t, f.offset, f.payload);
    }
  }
}
