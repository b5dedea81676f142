/**
 The hand-off between the control socket's thread and the idle waiter (control.c): a lock, a pipe
 and a ring of sixteen remembered decisions. Every step below is one critical section or one system
 call of one thread; a run interleaves them in any order.
 */
module Control {
  import opened Wrappers

  const CACHE_SIZE := 16
  const CACHE_TTL := 600_000_000

  /** A remembered decision; "" is an unused entry. */
  datatype Entry = Entry(id: string, accepted: bool, expires: int)

  /** The fields under the lock. */
  datatype Shared = Shared(stopping: bool, signalStopping: bool, eligible: bool, pending: bool, cache: seq<Entry>, next: nat)

  const UNUSED := Entry("", false, 0)

  predicate Live(e: Entry, id: string, now: int) {
    e.id != "" && e.expires >= now && e.id == id
  }

  /** The first live entry for `id`, or the size of the cache. */
  function Find(cache: seq<Entry>, id: string, now: int): (i: nat)
    ensures i <= |cache| && (i < |cache| ==> Live(cache[i], id, now))
    ensures forall j :: 0 <= j < i ==> !Live(cache[j], id, now)
  {
    if cache == [] || Live(cache[0], id, now) then 0 else 1 + Find(cache[1..], id, now)
  }

  predicate Grants(s: Shared) {
    s.eligible && !s.pending && !s.stopping && !s.signalStopping
  }

  /** cache_decision for an id that is not remembered: decide and remember. */
  function Decided(s: Shared, id: string, now: int): Shared
    requires s.next < |s.cache| == CACHE_SIZE
  {
    var ok := Grants(s);
    s.(pending := s.pending || ok, eligible := s.eligible && !ok,
       cache := s.cache[s.next := Entry(id, ok, now + CACHE_TTL)], next := (s.next + 1) % CACHE_SIZE)
  }

  // ---------------------------------------------------------------- two threads

  datatype Waiter = Away | FirstDrain | FirstLock | Polling(already: bool) | SecondDrain | SecondLock
  datatype Server = Serving | Waking

  /** `pipe` counts unread wake bytes; the last three fields are history. */
  datatype State = State(shared: Shared, pipe: nat, waiter: Waiter, server: Server, clock: int,
                         granted: nat, returned: nat, log: seq<Entry>)

  function Start(): State {
    State(Shared(false, false, false, false, seq(CACHE_SIZE, _ => UNUSED), 0), 0, Away, Serving, 0, 0, 0, [])
  }

  datatype Outcome = Readable | TimedOut | Interrupted | Broken

  datatype Step =
    | Request(id: string, now: int)   // the locked part of cache_decision
    | Wake(stored: bool)              // its write to the pipe, which fails when the pipe is full
    | Enter                           // ota_control_idle_wait is called
    | Read                            // one read of drain_wakeup
    | Arm(stopping: bool)             // its first critical section
    | Polled(outcome: Outcome)
    | Finish                          // its second critical section
    | Signal(stored: bool)            // ota_control_signal_wakeup
    | Close                           // ota_control_close up to the unlock

  /** A write that fails does so because unread bytes fill the pipe. */
  predicate PipeWrite(before: nat, after: nat, stored: bool) {
    if stored then after == before + 1 else after == before > 0
  }

  /** A remembered id is answered from the ring; a new one is decided. */
  function Requested(a: State, id: string, now: int): State
    requires a.shared.next < |a.shared.cache| == CACHE_SIZE
  {
    if Find(a.shared.cache, id, now) < CACHE_SIZE then a.(clock := now)
    else
      var ok := Grants(a.shared);
      a.(shared := Decided(a.shared, id, now), clock := now, log := a.log + [Entry(id, ok, now + CACHE_TTL)],
         granted := a.granted + (if ok then 1 else 0), server := if ok then Waking else Serving)
  }

  function Drained(a: State): State
    requires a.waiter == FirstDrain || a.waiter == SecondDrain
  {
    if a.pipe > 0 then a.(pipe := if a.pipe > 64 then a.pipe - 64 else 0)
    else a.(waiter := if a.waiter == FirstDrain then FirstLock else SecondLock)
  }

  /** A step of the server's thread, or of a client it serves. */
  ghost predicate ServerStep(step: Step, a: State, b: State) {
    (step.Request? ==>
      && a.server == Serving && step.id != "" && a.clock <= step.now && |a.shared.cache| == CACHE_SIZE && a.shared.next < CACHE_SIZE
      && b == Requested(a, step.id, step.now))
    && (step.Wake? ==> a.server == Waking && PipeWrite(a.pipe, b.pipe, step.stored) && b == a.(server := Serving, pipe := b.pipe))
  }

  /** A step of the waiting thread. */
  ghost predicate WaiterStep(step: Step, a: State, b: State) {
    (step.Enter? ==> a.waiter == Away && b == a.(waiter := FirstDrain))
    && (step.Read? ==> (a.waiter == FirstDrain || a.waiter == SecondDrain) && b == Drained(a))
    && (step.Arm? ==>
      && a.waiter == FirstLock
      && b == a.(shared := a.shared.(eligible := !a.shared.stopping && !a.shared.signalStopping && !step.stopping),
                 waiter := Polling(a.shared.pending)))
    && (step.Polled? ==>
      && a.waiter.Polling? && (step.outcome == Readable && !a.waiter.already ==> a.pipe > 0)
      && b == a.(waiter := if step.outcome == Broken && !a.waiter.already then Away else SecondDrain))
    && (step.Finish? ==>
      && a.waiter == SecondLock
      && b == a.(shared := a.shared.(eligible := false, pending := false), waiter := Away,
                 returned := a.returned + (if a.shared.pending then 1 else 0)))
  }

  /** A signal handler, or the closing thread. */
  ghost predicate OtherStep(step: Step, a: State, b: State) {
    (step.Signal? ==> PipeWrite(a.pipe, b.pipe, step.stored) && b == a.(shared := a.shared.(signalStopping := true), pipe := b.pipe))
    && (step.Close? ==> b == a.(shared := a.shared.(stopping := true, eligible := false)))
  }

  ghost predicate Next(step: Step, a: State, b: State) {
    ServerStep(step, a, b) && WaiterStep(step, a, b) && OtherStep(step, a, b)
  }

  ghost predicate StepAt(states: seq<State>, steps: seq<Step>, k: nat)
    requires k < |steps| && |states| == |steps| + 1
  {
    Next(steps[k], states[k], states[k + 1])
  }

  ghost predicate Run(states: seq<State>, steps: seq<Step>) {
    |states| == |steps| + 1 && states[0] == Start() && forall k :: 0 <= k < |steps| ==> StepAt(states, steps, k)
  }

  // ---------------------------------------------------------------- what every step keeps

  /** No granted check is lost or doubled. */
  predicate Conserved(s: State) {
    s.granted == s.returned + if s.shared.pending then 1 else 0
  }

  /** A waiter that polls while a check is pending has a byte to read, or one on its way. */
  predicate Awake(s: State) {
    s.waiter == Polling(false) && s.shared.pending ==> s.pipe > 0 || s.server == Waking
  }

  /** The ring holds the last sixteen decisions. */
  ghost predicate RingOk(s: State) {
    && |s.shared.cache| == CACHE_SIZE && s.shared.next == |s.log| % CACHE_SIZE
    && (forall j :: 0 <= j < |s.log| && |s.log| - j <= CACHE_SIZE ==> s.shared.cache[j % CACHE_SIZE] == s.log[j])
    && (forall i :: |s.log| <= i < CACHE_SIZE ==> s.shared.cache[i] == UNUSED)
    && (forall j :: 0 <= j < |s.log| ==> s.log[j].id != "")
  }

  /** At most one live entry for each request id. */
  ghost predicate Unique(s: State) {
    forall i, j :: 0 <= i < j < |s.shared.cache| && s.shared.cache[i].id == s.shared.cache[j].id != "" ==>
      s.shared.cache[i].expires < s.clock || s.shared.cache[j].expires < s.clock
  }

  ghost predicate Inv(s: State) {
    Conserved(s) && Awake(s) && RingOk(s) && Unique(s)
  }

  lemma ModNext(n: nat)
    ensures (n % CACHE_SIZE + 1) % CACHE_SIZE == (n + 1) % CACHE_SIZE
  {
  }

  lemma ModApart(j: nat, n: nat)
    requires j < n < j + CACHE_SIZE
    ensures j % CACHE_SIZE != n % CACHE_SIZE
  {
  }

  lemma RingMore(s: State, t: State, e: Entry)
    requires RingOk(s) && e.id != "" && t.log == s.log + [e]
    requires t.shared.cache == s.shared.cache[s.shared.next := e] && t.shared.next == (s.shared.next + 1) % CACHE_SIZE
    ensures RingOk(t)
  {
    ModNext(|s.log|);
    forall j | 0 <= j < |t.log| && |t.log| - j <= CACHE_SIZE ensures t.shared.cache[j % CACHE_SIZE] == t.log[j] {
      if j < |s.log| {
        ModApart(j, |s.log|);
      }
    }
  }

  lemma RequestInv(a: State, b: State, id: string, now: int)
    requires Inv(a) && Next(Request(id, now), a, b)
    ensures Inv(b)
  {
    if Find(a.shared.cache, id, now) == CACHE_SIZE {
      RingMore(a, b, Entry(id, Grants(a.shared), now + CACHE_TTL));
      assert forall j :: 0 <= j < CACHE_SIZE ==> !Live(a.shared.cache[j], id, now);
    }
  }

  /** Every step of either thread keeps all of it. */
  lemma NextInv(step: Step, a: State, b: State)
    requires Inv(a) && Next(step, a, b)
    ensures Inv(b)
  {
    if step.Request? {
      RequestInv(a, b, step.id, step.now);
    } else {
      assert RingOk(b) && Unique(b);
    }
  }

  lemma StartInv()
    ensures Inv(Start())
  {
  }

  lemma {:induction false} AlwaysInv(states: seq<State>, steps: seq<Step>, k: nat)
    requires Run(states, steps) && k <= |steps|
    ensures Inv(states[k])
  {
    hide Next, Inv;
    if k == 0 {
      StartInv();
    } else {
      AlwaysInv(states, steps, k - 1);
      assert StepAt(states, steps, k - 1);
      NextInv(steps[k - 1], states[k - 1], states[k]);
    }
  }

  /** In every interleaving: granted checks are delivered or pending, and a blocked waiter will be woken. */
  lemma HandOff(states: seq<State>, steps: seq<Step>, k: nat)
    requires Run(states, steps) && k <= |steps|
    ensures states[k].granted == states[k].returned + if states[k].shared.pending then 1 else 0
    ensures states[k].waiter == Polling(false) && states[k].shared.pending ==> states[k].pipe > 0 || states[k].server == Waking
  {
    AlwaysInv(states, steps, k);
  }

  /** A repeated request gets the remembered answer, until sixteen newer decisions or its expiry. */
  lemma SameAnswer(states: seq<State>, steps: seq<Step>, k: nat, j: nat, now: int)
    requires Run(states, steps) && k <= |steps| && states[k].clock <= now
    requires j < |states[k].log| && |states[k].log| - j <= CACHE_SIZE && states[k].log[j].expires >= now
    ensures var i := Find(states[k].shared.cache, states[k].log[j].id, now);
      i < |states[k].shared.cache| && i == j % CACHE_SIZE && states[k].shared.cache[i] == states[k].log[j]
  {
    AlwaysInv(states, steps, k);
    var s := states[k];
    var i := Find(s.shared.cache, s.log[j].id, now);
    var e := j % CACHE_SIZE;
    assert s.shared.cache[e] == s.log[j] && Live(s.shared.cache[e], s.log[j].id, now);
    assert i <= e;
  }

  lemma OneLiveEntry(states: seq<State>, steps: seq<Step>, k: nat, id: string, now: int, i: nat, j: nat)
    requires Run(states, steps) && k <= |steps| && states[k].clock <= now
    requires i < |states[k].shared.cache| && j < |states[k].shared.cache|
    requires Live(states[k].shared.cache[i], id, now) && Live(states[k].shared.cache[j], id, now)
    ensures i == j
  {
    AlwaysInv(states, steps, k);
  }

  // ---------------------------------------------------------------- which requests are accepted

  /** Step `k` answers a request that is new to the ring with yes. */
  predicate Accepted(states: seq<State>, steps: seq<Step>, k: nat)
    requires k < |steps| && |states| == |steps| + 1
  {
    steps[k].Request? && |states[k].log| < |states[k + 1].log| && states[k + 1].log[|states[k].log|].accepted
  }

  /** A signal or a close has come before step `k`. */
  predicate Stopped(steps: seq<Step>, k: nat)
    requires k <= |steps|
  {
    exists i :: 0 <= i < k && (steps[i].Signal? || steps[i].Close?)
  }

  /** The waiter has last armed the control for a caller that was not stopping, and nothing has used that up. */
  ghost predicate Armed(states: seq<State>, steps: seq<Step>, k: nat)
    requires k <= |steps| && |states| == |steps| + 1
  {
    exists i :: 0 <= i < k && steps[i] == Arm(false) &&
                forall j :: i < j < k ==> !steps[j].Arm? && !steps[j].Finish? && !Accepted(states, steps, j)
  }

  /** An accepted check has not been collected. */
  ghost predicate Outstanding(states: seq<State>, steps: seq<Step>, k: nat)
    requires k <= |steps| && |states| == |steps| + 1
  {
    exists i :: 0 <= i < k && Accepted(states, steps, i) && forall j :: i < j < k ==> !steps[j].Finish?
  }

  /** What one step does to the fields that decide. */
  lemma StepDecides(step: Step, a: State, b: State)
    requires Next(step, a, b) && |a.shared.cache| == CACHE_SIZE
    ensures a.log <= b.log && (!step.Request? ==> b.log == a.log)
    ensures var yes := step.Request? && |a.log| < |b.log| && b.log[|a.log|].accepted;
      && b.shared.pending == (if step.Finish? then false else if yes then true else a.shared.pending)
      && ((step.Finish? || step.Close? || yes) ==> !b.shared.eligible)
      && (step.Arm? ==> b.shared.eligible == (!step.stopping && !a.shared.stopping && !a.shared.signalStopping))
      && (!step.Finish? && !step.Close? && !step.Arm? && !yes ==> b.shared.eligible == a.shared.eligible)
    ensures (b.shared.stopping || b.shared.signalStopping) == (a.shared.stopping || a.shared.signalStopping || step.Signal? || step.Close?)
  {
  }

  lemma {:induction false} DecidedBySteps(states: seq<State>, steps: seq<Step>, k: nat)
    requires Run(states, steps) && k <= |steps|
    ensures (states[k].shared.stopping || states[k].shared.signalStopping) == Stopped(steps, k)
    ensures states[k].shared.pending == Outstanding(states, steps, k)
    ensures !Stopped(steps, k) ==> states[k].shared.eligible == Armed(states, steps, k)
  {
    hide Next, Inv;
    if k > 0 {
      DecidedBySteps(states, steps, k - 1);
      AlwaysInv(states, steps, k - 1);
      InvRing(states[k - 1]);
      assert StepAt(states, steps, k - 1);
      StepDecides(steps[k - 1], states[k - 1], states[k]);
      StoppedStep(steps, k);
      OutstandingStep(states, steps, k);
      ArmedStep(states, steps, k);
    }
  }

  lemma InvRing(s: State)
    requires Inv(s)
    ensures |s.shared.cache| == CACHE_SIZE && s.shared.next < CACHE_SIZE
  {
  }

  lemma StoppedStep(steps: seq<Step>, k: nat)
    requires 0 < k <= |steps|
    ensures Stopped(steps, k) == (Stopped(steps, k - 1) || steps[k - 1].Signal? || steps[k - 1].Close?)
  {
  }

  lemma OutstandingStep(states: seq<State>, steps: seq<Step>, k: nat)
    requires 0 < k <= |steps| && |states| == |steps| + 1
    ensures Outstanding(states, steps, k) == (Accepted(states, steps, k - 1) || (Outstanding(states, steps, k - 1) && !steps[k - 1].Finish?))
  {
    hide Accepted;
    if Outstanding(states, steps, k - 1) && !steps[k - 1].Finish? {
      var i :| 0 <= i < k - 1 && Accepted(states, steps, i) && forall j :: i < j < k - 1 ==> !steps[j].Finish?;
      assert Accepted(states, steps, i) && forall j :: i < j < k ==> !steps[j].Finish?;
    }
  }

  lemma ArmedStep(states: seq<State>, steps: seq<Step>, k: nat)
    requires 0 < k <= |steps| && |states| == |steps| + 1
    ensures var last := steps[k - 1];
      Armed(states, steps, k) ==
      (last == Arm(false) || (Armed(states, steps, k - 1) && !last.Arm? && !last.Finish? && !Accepted(states, steps, k - 1)))
  {
    hide Accepted;
    if Armed(states, steps, k - 1) && !steps[k - 1].Arm? && !steps[k - 1].Finish? && !Accepted(states, steps, k - 1) {
      var i :| 0 <= i < k - 1 && steps[i] == Arm(false) &&
               forall j :: i < j < k - 1 ==> !steps[j].Arm? && !steps[j].Finish? && !Accepted(states, steps, j);
      assert steps[i] == Arm(false) && forall j :: i < j < k ==> !steps[j].Arm? && !steps[j].Finish? && !Accepted(states, steps, j);
    }
  }

  /**
   In every interleaving a request that is new to the ring is accepted exactly if the waiter is armed,
   nothing is outstanding and nothing has stopped the control; then it is pending, and a byte is on its way.
   */
  lemma AcceptedExactly(states: seq<State>, steps: seq<Step>, k: nat)
    requires Run(states, steps) && k < |steps| && steps[k].Request?
    requires forall e <- states[k].shared.cache :: !Live(e, steps[k].id, steps[k].now)
    ensures Accepted(states, steps, k) <==> Armed(states, steps, k) && !Outstanding(states, steps, k) && !Stopped(steps, k)
    ensures Accepted(states, steps, k) ==> states[k + 1].shared.pending && states[k + 1].server == Waking
    ensures states[k + 1].log == states[k].log + [Entry(steps[k].id, Accepted(states, steps, k), steps[k].now + CACHE_TTL)]
  {
    hide Run, Armed, Outstanding, Stopped, Inv;
    RunStep(states, steps, k);
    DecidedBySteps(states, steps, k);
    AlwaysInv(states, steps, k);
    InvRing(states[k]);
  }

  lemma RunStep(states: seq<State>, steps: seq<Step>, k: nat)
    requires Run(states, steps) && k < |steps|
    ensures |states| == |steps| + 1 && Next(steps[k], states[k], states[k + 1])
  {
    hide Next;
    assert StepAt(states, steps, k);
  }

  // ---------------------------------------------------------------- the object

  /** OtaControl: each method is one critical section. */
  class Control {
    var stopping: bool
    var signalStopping: bool
    var idleEligible: bool
    var pending: bool
    var cache: seq<Entry>
    var cacheNext: nat

    function Value(): Shared
      reads this
    {
      Shared(stopping, signalStopping, idleEligible, pending, cache, cacheNext)
    }

    constructor ()
      ensures Value() == Start().shared
    {
      stopping, signalStopping, idleEligible, pending := false, false, false, false;
      cache, cacheNext := seq(CACHE_SIZE, _ => UNUSED), 0;
    }

    /** cache_decision between lock and unlock; `wake` tells whether a byte is to be written afterwards. */
    method CacheDecision(id: string, now: int) returns (accepted: bool, wake: bool)
      requires |cache| == CACHE_SIZE && cacheNext < CACHE_SIZE
      modifies this
      ensures var i := Find(old(cache), id, now);
        if i < CACHE_SIZE then Value() == old(Value()) && accepted == old(cache)[i].accepted && !wake
        else Value() == Decided(old(Value()), id, now) && accepted == wake == Grants(old(Value()))
    {
      var i := 0;
      while i < CACHE_SIZE
        invariant 0 <= i <= CACHE_SIZE && Find(cache, id, now) == i + Find(cache[i..], id, now)
      {
        var entry := cache[i];
        if entry.id != "" && entry.expires >= now && entry.id == id {
          return entry.accepted, false;
        }
        assert cache[i..][1..] == cache[i + 1..];
        i := i + 1;
      }
      accepted := idleEligible && !pending && !stopping && !signalStopping;
      if accepted {
        pending := true;
        idleEligible := false;
      }
      cache := cache[cacheNext := Entry(id, accepted, now + CACHE_TTL)];
      cacheNext := (cacheNext + 1) % CACHE_SIZE;
      wake := accepted;
    }

    /** The first critical section of ota_control_idle_wait. */
    method Arm(callerStopping: bool) returns (alreadyPending: bool)
      modifies this`idleEligible
      ensures Value() == old(Value()).(eligible := !stopping && !signalStopping && !callerStopping) && alreadyPending == old(pending)
    {
      idleEligible := !stopping && !signalStopping && !callerStopping;
      alreadyPending := pending;
    }

    /** Its second: a pending check is handed to the caller. */
    method Collect() returns (checkRequested: bool)
      modifies this`idleEligible, this`pending
      ensures Value() == old(Value()).(eligible := false, pending := false) && checkRequested == old(pending)
    {
      idleEligible, checkRequested := false, false;
      if pending {
        pending := false;
        checkRequested := true;
      }
    }
  }
}
