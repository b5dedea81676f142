/**
 An honest central gets its message through: slices of one text, START first and END last, in time,
 the middle ones overlapping in any order, with other traffic, stray frames and timers in between.
 */
module HonestSender {
  import opened Bytes
  import opened ProtocolKeys
  import opened Frame
  import opened Reassembly
  import opened ReassemblyRuns
  import opened Wrappers

  datatype Message = Message(slot: Slot, id: TransactionId, opcode: byte, text: seq<byte>)

  predicate Sendable(m: Message) {
    && |m.slot.peer| < PATH_CAP && ObjectPath(m.slot.peer) && Nonzero(m.id) && OpcodeAllowed(m.slot.characteristic, m.opcode)
    && |m.text| <= MAX_JSON && TextOk(m.text)
  }

  function TagOf(m: Message): Tag {
    Tag(m.slot, m.id)
  }

  predicate FrameOf(m: Message, f: Frame) {
    && Legal(m.slot.characteristic, f)
    && f.id == m.id && f.opcode == m.opcode && f.total == |m.text|
    && f.payload == m.text[f.offset..f.offset + |f.payload|]
  }

  /** A slice of the message, in a frame. */
  predicate Own(m: Message, step: Step) {
    && step.Write? && step.slot == m.slot && step.now > 0
    && Parse(step.slot.characteristic, step.value).Good?
    && FrameOf(m, Parse(step.slot.characteristic, step.value).frame)
  }

  /** A frame that does not even claim to belong to the message: malformed, or with another header. */
  predicate Stray(m: Message, parsed: Parsed) {
    match parsed
    case Bad(_) => true
    case Good(f) => f.id != m.id || f.opcode != m.opcode || f.total != |m.text|
  }

  predicate Foreign(m: Message, step: Step) {
    match step
    case Write(slot, value, _, _, _) => slot != m.slot || Stray(m, Parse(slot.characteristic, value))
    case Tick(_) => true
    case Publish(_, _, _, _, _) => true
    case DropPeer(peer) => peer != m.slot.peer
    case DropAll => false
  }

  function FrameIn(step: Step): Frame
    requires step.Write? && Parse(step.slot.characteristic, step.value).Good?
  {
    Parse(step.slot.characteristic, step.value).frame
  }

  function SliceIn(step: Step): Slice
    requires step.Write? && Parse(step.slot.characteristic, step.value).Good?
  {
    Slice(FrameIn(step).offset, FrameIn(step).payload)
  }

  /** When the transaction was last touched before step `k`. */
  function LastTouch(m: Message, steps: seq<Step>, k: nat): int
    requires 1 <= k <= |steps|
  {
    if steps[k - 1].Write? && (k == 1 || Own(m, steps[k - 1])) then steps[k - 1].now
    else if k == 1 then 0 else LastTouch(m, steps, k - 1)
  }

  predicate InTime(step: Step, created: int, touched: int) {
    step.DropPeer? || step.DropAll? || (step.now - touched < IDLE && step.now - created < LIFETIME)
  }

  function OwnSlices(m: Message, steps: seq<Step>, k: nat): seq<Slice>
    requires k <= |steps|
  {
    if k == 0 then []
    else if Own(m, steps[k - 1]) then OwnSlices(m, steps, k - 1) + [SliceIn(steps[k - 1])]
    else OwnSlices(m, steps, k - 1)
  }

  predicate Timely(m: Message, steps: seq<Step>, k: nat)
    requires 1 <= k < |steps| && steps[0].Write?
  {
    InTime(steps[k], steps[0].now, LastTouch(m, steps, k))
  }

  ghost predicate Transfer(m: Message, steps: seq<Step>) {
    var last := |steps| - 1;
    && Sendable(m) && |steps| >= 1
    && (forall k :: 0 <= k <= last ==> Own(m, steps[k]) || Foreign(m, steps[k]))
    && Own(m, steps[0]) && FrameIn(steps[0]).start
    && Own(m, steps[last]) && FrameIn(steps[last]).end
    && (forall k :: 0 <= k < last && Own(m, steps[k]) ==> !FrameIn(steps[k]).end)
    && (forall k :: 1 <= k <= last ==> Timely(m, steps, k))
    && AllCovered(OwnSlices(m, steps, |steps|), m.text)
  }

  /** The tables can take the message: no live transaction in its slot, room for one, no fresh timeout. */
  ghost predicate Ready(t: Tables, m: Message, now: int) {
    && TablesOk(t)
    && (m.slot in t.incomplete ==> Stale(t.incomplete[m.slot], now) && t.incomplete[m.slot].id != m.id)
    && |Alive(t.incomplete, now)| < MAX_INCOMPLETE
    && (TagOf(m) in t.expired ==> t.expired[TagOf(m)] <= now)
  }

  /** The transaction is the message's, holds the slices sent so far, and nothing stands in its way. */
  ghost predicate Carrying(t: Tables, m: Message, slices: seq<Slice>, created: int, touched: int)
    requires |m.text| <= MAX_JSON
  {
    && TablesOk(t) && m.slot in t.incomplete && TagOf(m) !in t.expired
    && Matches(t.incomplete[m.slot], m, slices)
    && t.incomplete[m.slot].created == created && t.incomplete[m.slot].touched == touched
  }

  ghost predicate Matches(t: Incomplete, m: Message, slices: seq<Slice>) {
    t.id == m.id && t.opcode == m.opcode && t.total == |m.text| && Holds(t, slices)
  }

  ghost predicate AllCovered(slices: seq<Slice>, text: seq<byte>) {
    forall i :: 0 <= i < |text| ==> Covered(slices, i)
  }

  ghost predicate Waits(d: Decision, m: Message, slices: seq<Slice>, created: int, now: int) {
    d.reply.Pending? && d.slot.Some? && Matches(d.slot.value, m, slices) && d.slot.value.created == created && d.slot.value.touched == now
  }

  ghost predicate AllFrom(slices: seq<Slice>, text: seq<byte>) {
    forall s <- slices :: Agrees(s, text)
  }

  lemma {:induction false} OwnSlicesAgree(m: Message, steps: seq<Step>, k: nat)
    requires k <= |steps|
    ensures AllFrom(OwnSlices(m, steps, k), m.text)
  {
    if k > 0 {
      OwnSlicesAgree(m, steps, k - 1);
    }
  }

  // ---------------------------------------------------------------- one step

  lemma SweepKeeps(pre: Tables, post: Tables, m: Message, slices: seq<Slice>, created: int, touched: int, now: int)
    requires |m.text| <= MAX_JSON && Carrying(pre, m, slices, created, touched) && Swept(pre, post, now)
    requires now - touched < IDLE && now - created < LIFETIME
    ensures Carrying(post, m, slices, created, touched)
    ensures TagOf(m) !in pre.completed ==> TagOf(m) !in post.completed
  {
    hide Matches, DigestOf, TablesOk;
    SweptOk(pre, post, now);
    assert TagOf(m) !in Marked(pre.expired, pre.incomplete, pre.incomplete.Keys, now);
  }

  lemma ForeignSettled(swept: Tables, post: Tables, slot: Slot, f: Frame, now: int, reply: Reply, m: Message)
    requires |m.text| <= MAX_JSON && slot != m.slot && TablesOk(swept) && Legal(slot.characteristic, f)
    requires Settled(swept, post, slot, f, now, reply)
    ensures m.slot in post.incomplete <==> m.slot in swept.incomplete
    ensures m.slot in post.incomplete ==> post.incomplete[m.slot] == swept.incomplete[m.slot]
    ensures post.expired == swept.expired
    ensures TagOf(m) in post.completed ==> TagOf(m) in swept.completed && post.completed[TagOf(m)] == swept.completed[TagOf(m)]
  {
    hide Decide, Settled, TablesOk, Legal;
    SettledParts(swept, post, slot, f, now, reply);
    DecideOk(swept, slot, f, now);
    if reply.Complete? {
      assert Tag(reply.request.slot, reply.request.id) != TagOf(m);
      assert TagOf(m) in post.completed ==> TagOf(m) in post.completed - {Tag(reply.request.slot, reply.request.id)};
    }
  }

  /** A stray frame in the slot of a live transaction is refused and leaves it alone. */
  lemma StraySettled(swept: Tables, post: Tables, f: Frame, now: int, reply: Reply, m: Message)
    requires |m.text| <= MAX_JSON && TablesOk(swept) && Legal(m.slot.characteristic, f) && Stray(m, Good(f))
    requires m.slot in swept.incomplete && Settled(swept, post, m.slot, f, now, reply)
    requires var t := swept.incomplete[m.slot]; t.id == m.id && t.opcode == m.opcode && t.total == |m.text|
    ensures post == swept
  {
    hide TablesOk, Settled, Legal, Merge, Marks, TextOk, Parse, DigestOf, Nonzero;
    SettledParts(swept, post, m.slot, f, now, reply);
    assert swept.incomplete[m.slot := swept.incomplete[m.slot]] == swept.incomplete;
  }

  lemma ForeignWrite(step: Step, pre: Tables, post: Tables, m: Message, slices: seq<Slice>, created: int, touched: int)
    requires |m.text| <= MAX_JSON && Carrying(pre, m, slices, created, touched) && StepRel(step, pre, post)
    requires step.Write? && Foreign(m, step) && InTime(step, created, touched)
    ensures Carrying(post, m, slices, created, touched)
    ensures TagOf(m) !in pre.completed ==> TagOf(m) !in post.completed
  {
    StepOk(step, pre, post);
    hide Matches, DigestOf, TablesOk, Settled, Legal, Parse, ObjectPath, Swept, Stale;
    if InputOk(step.slot.peer, step.now) && Parse(step.slot.characteristic, step.value).Good? {
      var f := Parse(step.slot.characteristic, step.value).frame;
      if !OwnTimeout(pre, step.slot, f, step.now) {
        SweepKeeps(pre, step.swept, m, slices, created, touched, step.now);
        if step.slot == m.slot {
          StraySettled(step.swept, post, f, step.now, step.reply, m);
        } else {
          ForeignSettled(step.swept, post, step.slot, f, step.now, step.reply, m);
        }
      }
    }
  }

  lemma ForeignKeeps(step: Step, pre: Tables, post: Tables, m: Message, slices: seq<Slice>, created: int, touched: int)
    requires |m.text| <= MAX_JSON && Carrying(pre, m, slices, created, touched) && StepRel(step, pre, post)
    requires Foreign(m, step) && InTime(step, created, touched)
    ensures Carrying(post, m, slices, created, touched)
    ensures TagOf(m) !in pre.completed ==> TagOf(m) !in post.completed
  {
    StepOk(step, pre, post);
    hide Matches, DigestOf, TablesOk, Accepts, Swept, TextOk;
    match step
    case Write(_, _, _, _, _) => ForeignWrite(step, pre, post, m, slices, created, touched);
    case Tick(now) => if now > 0 { SweepKeeps(pre, post, m, slices, created, touched, now); }
    case Publish(tag, result, now, ok, swept) =>
      if ResultOk(result, now) { SweepKeeps(pre, swept, m, slices, created, touched, now); }
    case DropPeer(peer) =>
  }

  /** What the buffer holds is the text, so no slice of the text contradicts it. */
  lemma OwnFits(t: Incomplete, m: Message, slices: seq<Slice>, f: Frame)
    requires TransactionOk(t) && Matches(t, m, slices) && AllFrom(slices, m.text) && FrameOf(m, f)
    ensures Fits(t, f.offset, f.payload)
  {
    hide Marks, Nonzero;
    forall i | 0 <= i < |f.payload| && t.received[f.offset + i] ensures t.data[f.offset + i] == f.payload[i] {
      var p := f.offset + i;
      assert Covered(slices, p);
      var s :| s in slices && Covers(s, p);
      assert Agrees(s, t.data) && Agrees(s, m.text);
      assert t.data[p] == s.payload[p - s.offset] by { assert t.data[s.offset..s.offset + |s.payload|][p - s.offset] == t.data[p]; }
      assert m.text[p] == s.payload[p - s.offset] by { assert m.text[s.offset..s.offset + |s.payload|][p - s.offset] == m.text[p]; }
    }
  }

  lemma MadeOfText(json: seq<byte>, text: seq<byte>, slices: seq<Slice>)
    requires |json| == |text| && MadeOf(json, slices) && AllFrom(slices, text)
    ensures json == text
  {
    forall p | 0 <= p < |json| ensures json[p] == text[p] {
      assert Covered(slices, p);
      var s :| s in slices && Covers(s, p);
      assert Agrees(s, json) && Agrees(s, text);
      assert json[s.offset..s.offset + |s.payload|][p - s.offset] == json[p];
      assert text[s.offset..s.offset + |s.payload|][p - s.offset] == text[p];
    }
  }

  /** One more slice: it waits, unless it is the last one, which completes the text. */
  lemma OwnMerge(completed: map<Tag, Completed>, t: Incomplete, m: Message, slices: seq<Slice>, f: Frame, now: int)
    requires TransactionOk(t) && Matches(t, m, slices) && AllFrom(slices, m.text) && FrameOf(m, f) && Sendable(m)
    ensures var d, more := Merge(completed, m.slot, t, f, now), slices + [Slice(f.offset, f.payload)];
      && AllFrom(more, m.text)
      && (!f.end ==> Waits(d, m, more, t.created, now))
      && (f.end && AllCovered(more, m.text) ==> Answers(completed, m, d.reply))
  {
    hide Marks, TextOk, Utf8.Valid, Nonzero, MadeOf, Holds, DigestOf, Fits, Absorbed, ObjectPath;
    var more := slices + [Slice(f.offset, f.payload)];
    OwnFits(t, m, slices, f);
    AbsorbedOk(t, f.offset, f.payload);
    HoldsMore(t, slices, f.offset, f.payload);
    AbsorbedKeeps(t, f.offset, f.payload);
    var next := Absorbed(t, f.offset, f.payload).(touched := now, endSeen := t.endSeen || f.end);
    assert Holds(next, more) by { HoldsSame(Absorbed(t, f.offset, f.payload), next, more); }
    if f.end && AllCovered(more, m.text) {
      CountReached(next, more);
      FullHolds(next, more);
      MadeOfText(next.data[..next.total], m.text, more);
    }
  }

  lemma HoldsSame(t: Incomplete, u: Incomplete, slices: seq<Slice>)
    requires Holds(t, slices) && u.data == t.data && u.received == t.received && u.total == t.total
    ensures Holds(u, slices)
  {
  }

  lemma AbsorbedKeeps(t: Incomplete, offset: nat, payload: seq<byte>)
    requires InBuffer(t, offset, payload)
    ensures var u := Absorbed(t, offset, payload);
      u.id == t.id && u.opcode == t.opcode && u.total == t.total && u.created == t.created && u.endSeen == t.endSeen
  {
  }

  lemma CountReached(t: Incomplete, slices: seq<Slice>)
    requires |t.received| == MAX_JSON && t.total <= MAX_JSON && t.count == Marks(t.received) && Holds(t, slices)
    requires forall i :: t.total <= i < MAX_JSON ==> !t.received[i]
    requires forall i :: 0 <= i < t.total ==> Covered(slices, i)
    ensures t.count == t.total
  {
    MarksFull(t.received, t.total);
  }

  function RequestOf(m: Message): Request {
    Request(m.slot, m.id, m.opcode, m.text)
  }

  /** A new id completes, a repetition gets the cached bytes, and another content under a cached id is rejected. */
  ghost predicate Answers(completed: map<Tag, Completed>, m: Message, reply: Reply)
    requires |m.text| <= MAX_JSON
  {
    match reply
    case Complete(r) => TagOf(m) !in completed && r == RequestOf(m)
    case Replay(r, cached) =>
      && TagOf(m) in completed && r == RequestOf(m)
      && completed[TagOf(m)].digest == DigestOf(RequestOf(m)) && cached == completed[TagOf(m)].result
    case Refused(code) =>
      && TagOf(m) in completed && completed[TagOf(m)].digest != DigestOf(RequestOf(m)) && code == ReplayRejected
    case Pending => false
  }

  lemma DecideOwn(swept: Tables, m: Message, slices: seq<Slice>, created: int, f: Frame, now: int)
    requires Sendable(m) && TablesOk(swept) && FrameOf(m, f) && AllFrom(slices, m.text)
    requires TagOf(m) !in swept.expired
    requires if m.slot in swept.incomplete then
               Matches(swept.incomplete[m.slot], m, slices) && swept.incomplete[m.slot].created == created
             else f.start && |swept.incomplete| < MAX_INCOMPLETE && slices == [] && created == now
    ensures var d, more := Decide(swept, m.slot, f, now), slices + [Slice(f.offset, f.payload)];
      && AllFrom(more, m.text)
      && (!f.end ==> Waits(d, m, more, created, now))
      && (f.end && AllCovered(more, m.text) ==> Answers(swept.completed, m, d.reply))
  {
    hide Merge, Holds, Waits, Answers, AllCovered, Legal, Marks;
    FreshOk(f, now);
    FreshHolds(f, now);
    var t := if m.slot in swept.incomplete then swept.incomplete[m.slot] else Fresh(f, now);
    OwnMerge(swept.completed, t, m, slices, f, now);
  }

  lemma FreshHolds(f: Frame, now: int)
    ensures Holds(Fresh(f, now), [])
  {
  }

  lemma OwnSettled(swept: Tables, post: Tables, m: Message, slices: seq<Slice>, created: int, f: Frame, now: int, reply: Reply)
    requires Sendable(m) && TablesOk(swept) && FrameOf(m, f) && AllFrom(slices, m.text) && now <= CLOCK_MAX
    requires TagOf(m) !in swept.expired
    requires if m.slot in swept.incomplete then
               Matches(swept.incomplete[m.slot], m, slices) && swept.incomplete[m.slot].created == created
             else f.start && |swept.incomplete| < MAX_INCOMPLETE && slices == [] && created == now
    requires Settled(swept, post, m.slot, f, now, reply)
    ensures var more := slices + [Slice(f.offset, f.payload)];
      && (!f.end ==> Carrying(post, m, more, created, now) && post.completed == swept.completed)
      && (f.end && AllCovered(more, m.text) ==> Answers(swept.completed, m, reply))
  {
    hide Decide, Settled, TablesOk, Legal, AllCovered, Matches, DigestOf;
    DecideOwn(swept, m, slices, created, f, now);
    SettledParts(swept, post, m.slot, f, now, reply);
    SettledOk(swept, post, m.slot, f, now, reply);
  }

  /** The first slice of the message, from tables that are ready for it. */
  lemma FirstWrite(step: Step, pre: Tables, post: Tables, m: Message)
    requires Sendable(m) && Own(m, step) && FrameIn(step).start && Ready(pre, m, step.now) && StepRel(step, pre, post)
    ensures !FrameIn(step).end ==> Carrying(post, m, [SliceIn(step)], step.now, step.now)
    ensures !FrameIn(step).end && TagOf(m) !in pre.completed ==> TagOf(m) !in post.completed
    ensures FrameIn(step).end && AllCovered([SliceIn(step)], m.text) ==>
              Answers(step.swept.completed, m, step.reply) && (TagOf(m) !in pre.completed ==> step.reply.Complete?)
  {
    hide Settled, TablesOk, Legal, AllCovered, Matches, DigestOf, Parse, ObjectPath, TextOk, Carrying;
    var f := FrameIn(step);
    assert TagOf(m) !in Unelapsed(Marked(pre.expired, pre.incomplete, pre.incomplete.Keys, step.now), step.now);
    OwnSettled(step.swept, post, m, [], step.now, f, step.now, step.reply);
    assert [] + [SliceIn(step)] == [SliceIn(step)];
  }

  /** A further slice, in time. */
  lemma NextWrite(step: Step, pre: Tables, post: Tables, m: Message, slices: seq<Slice>, created: int, touched: int)
    requires Sendable(m) && Own(m, step) && StepRel(step, pre, post) && AllFrom(slices, m.text)
    requires Carrying(pre, m, slices, created, touched) && InTime(step, created, touched)
    ensures var more := slices + [SliceIn(step)];
      && (!FrameIn(step).end ==> Carrying(post, m, more, created, step.now))
      && (!FrameIn(step).end && TagOf(m) !in pre.completed ==> TagOf(m) !in post.completed)
      && (FrameIn(step).end && AllCovered(more, m.text) ==>
           Answers(step.swept.completed, m, step.reply) && (TagOf(m) !in pre.completed ==> step.reply.Complete?))
  {
    hide Settled, TablesOk, Legal, AllCovered, Matches, DigestOf, Parse, ObjectPath, TextOk, Swept, Stale, AllFrom;
    var f := FrameIn(step);
    assert !OwnTimeout(pre, m.slot, f, step.now) by { NotStale(pre.incomplete[m.slot], created, touched, step.now); }
    SweepKeeps(pre, step.swept, m, slices, created, touched, step.now);
    OwnSettled(step.swept, post, m, slices, created, f, step.now, step.reply);
  }

  lemma NotStale(t: Incomplete, created: int, touched: int, now: int)
    requires t.created == created && t.touched == touched && now - touched < IDLE && now - created < LIFETIME
    ensures !Stale(t, now)
  {
  }

  // ---------------------------------------------------------------- the whole transfer

  lemma {:induction false} OnTheWay(states: seq<Tables>, steps: seq<Step>, m: Message, k: nat)
    requires Run(states, steps) && Transfer(m, steps) && Ready(states[0], m, steps[0].now) && 1 <= k < |steps|
    ensures Carrying(states[k], m, OwnSlices(m, steps, k), steps[0].now, LastTouch(m, steps, k))
    ensures TagOf(m) !in states[0].completed ==> TagOf(m) !in states[k].completed
  {
    hide StepRel, Carrying, FrameOf, Parse, Ready, Sendable, AllCovered, InTime, Foreign, AllFrom;
    var step := steps[k - 1];
    assert StepAt(states, steps, k - 1);
    if k == 1 {
      FirstWrite(step, states[0], states[1], m);
      assert OwnSlices(m, steps, 1) == [] + [SliceIn(step)] == [SliceIn(step)];
    } else {
      OnTheWay(states, steps, m, k - 1);
      OwnSlicesAgree(m, steps, k - 1);
      assert Timely(m, steps, k - 1);
      var slices, touched := OwnSlices(m, steps, k - 1), LastTouch(m, steps, k - 1);
      OwnOrForeign(m, step);
      if Own(m, step) {
        NextWrite(step, states[k - 1], states[k], m, slices, steps[0].now, touched);
      } else {
        ForeignKeeps(step, states[k - 1], states[k], m, slices, steps[0].now, touched);
      }
    }
  }

  lemma OwnOrForeign(m: Message, step: Step)
    ensures Own(m, step) ==> step.Write? && step.slot == m.slot
    ensures Sendable(m) ==> |m.text| <= MAX_JSON
  {
  }

  /**
   Reassembly refines the plain message: whatever else happens in between, the last slice of an
   honest transfer hands over exactly the text: as new exactly if the cache does not know its id, else with
   the cached result, or to be rejected as another request under a used id.
   */
  lemma HonestTransfer(states: seq<Tables>, steps: seq<Step>, m: Message)
    requires Run(states, steps) && Transfer(m, steps) && Ready(states[0], m, steps[0].now)
    ensures |m.text| <= MAX_JSON && Answers(steps[|steps| - 1].swept.completed, m, steps[|steps| - 1].reply)
    ensures TagOf(m) !in states[0].completed ==> steps[|steps| - 1].reply.Complete?
  {
    hide StepRel, Carrying, FrameOf, Parse, Ready, Sendable, AllCovered, InTime, Foreign, AllFrom, Answers;
    var last := |steps| - 1;
    assert StepAt(states, steps, last);
    OwnOrForeign(m, steps[0]);
    if last == 0 {
      FirstWrite(steps[0], states[0], states[1], m);
      assert OwnSlices(m, steps, 1) == [] + [SliceIn(steps[0])] == [SliceIn(steps[0])];
    } else {
      OnTheWay(states, steps, m, last);
      OwnSlicesAgree(m, steps, last);
      assert Timely(m, steps, last);
      NextWrite(steps[last], states[last], states[last + 1], m, OwnSlices(m, steps, last), steps[0].now, LastTouch(m, steps, last));
    }
  }
}
