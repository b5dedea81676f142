/** What follows for whole runs of the provisioning daemon. */
module DaemonRuns {
  import opened Bytes
  import opened ProtocolKeys
  import opened Frame
  import opened Reassembly
  import opened ReassemblyRuns
  import opened HonestSender
  import opened Security
  import opened DaemonModel
  import opened Wrappers
  import Utf8

  ghost predicate StepsAt(states: seq<Moment>, events: seq<DaemonModel.Event>, k: nat)
    requires k < |events| && |states| == |events| + 1
  {
    Handles(events[k], states[k], states[k + 1])
  }

  ghost predicate Path(states: seq<Moment>, events: seq<DaemonModel.Event>) {
    |states| == |events| + 1 && forall k :: 0 <= k < |events| ==> StepsAt(states, events, k)
  }

  ghost predicate DaemonRun(states: seq<Moment>, events: seq<DaemonModel.Event>) {
    Path(states, events) && states[0] == FIRST
  }

  lemma {:induction false} AlwaysInv(states: seq<Moment>, events: seq<DaemonModel.Event>, k: nat)
    requires DaemonRun(states, events) && k <= |events|
    ensures Inv(states[k])
  {
    hide Handles, Inv;
    if k == 0 {
      FirstInv();
    } else {
      AlwaysInv(states, events, k - 1);
      assert StepsAt(states, events, k - 1);
      StepInv(events[k - 1], states[k - 1], states[k]);
    }
  }

  /** At every event boundary what is cached or incomplete belongs to the owner of the open window. */
  lemma EntriesBelongToOwner(states: seq<Moment>, events: seq<DaemonModel.Event>, k: nat)
    requires DaemonRun(states, events) && k <= |events|
    ensures TablesOk(states[k].tables) && OwnedByWindow(states[k])
  {
    AlwaysInv(states, events, k);
  }

  lemma PublishedBoundary(pre: Moment, post: Moment, peer: string, json: seq<byte>, ended: bool, now: int, noted: bool, resweep: Tables)
    requires Published(pre, post, peer, json, ended, now, noted, resweep)
    ensures post.window == pre.window && post.completions == pre.completions
  {
    hide Cached;
  }

  // ---------------------------------------------------------------- the history, told by the events

  /** A request goes through: its frame is accepted and its sender let in. */
  predicate Completes(s: Moment, e: DaemonModel.Event) {
    e.Written? && LetIn(s, e.attempt) && e.attempt.reply.Complete? && Judgement(s, e.attempt).Allowed?
  }

  function Named(e: DaemonModel.Event): Tag
    requires e.Written? && e.attempt.reply.Complete?
  {
    DaemonModel.TagOf(e.attempt.reply.request)
  }

  /** An accepted frame of a peer that BlueZ no longer reports as connected. */
  predicate Drops(s: Moment, e: DaemonModel.Event) {
    e.Written? && LetIn(s, e.attempt) && !e.attempt.reply.Refused? && !e.attempt.answer.value.connected
  }

  function Listed(s: Moment, e: DaemonModel.Event): seq<Tag> {
    if Drops(s, e) then [] else if Completes(s, e) then s.completions + [Named(e)] else s.completions
  }

  /** What an event does to the window and the list of completions. */
  ghost predicate Boundary(e: DaemonModel.Event, pre: Moment, post: Moment) {
    && (post.window.epoch != pre.window.epoch ==>
         post.tables == EMPTY && post.active.None? && post.lastResult == [] && post.completions == [])
    && (post.window.epoch == pre.window.epoch ==> post.completions == Listed(pre, e))
    && (post.window.epoch == pre.window.epoch && pre.window.owner != "" ==> post.window == pre.window)
    && (Drops(pre, e) ==> post.window == pre.window && post.tables == EMPTY)
  }

  lemma DenyBoundary(e: DaemonModel.Event, pre: Moment, post: Moment)
    requires e.Written? && WriteStep(pre, post, e.attempt) && LetIn(pre, e.attempt)
    requires !e.attempt.reply.Refused? && Judgement(pre, e.attempt).Denied?
    ensures Boundary(e, pre, post)
  {
    hide Accepts, ObjectPath, NextEpoch, AdmitStep;
  }

  lemma AdmitParts(pre: Moment, post: Moment, a: Attempt)
    requires a.answer.Some? && !a.reply.Refused? && AdmitStep(pre, post, a)
    ensures post.window == Entered(pre, a).window
    ensures post.completions == if a.reply.Complete? then pre.completions + [DaemonModel.TagOf(a.reply.request)] else pre.completions
  {
    hide Published, Claimed;
    if a.reply.Complete? && !a.closing && a.notice != [] {
      var s := Entered(pre, a).(completions := pre.completions + [DaemonModel.TagOf(a.reply.request)], clock := pre.clock);
      PublishedBoundary(s.(active := Some(DaemonModel.TagOf(a.reply.request)),
                           job := Job.Working(a.reply.request, s.window.epoch, a.answer.value.connectionEpoch)),
                        post, a.slot.peer, a.notice, false, a.published, a.noted, a.resweep);
    }
  }

  lemma AdmitBoundary(e: DaemonModel.Event, pre: Moment, post: Moment)
    requires e.Written? && WriteStep(pre, post, e.attempt) && LetIn(pre, e.attempt)
    requires !e.attempt.reply.Refused? && Judgement(pre, e.attempt).Allowed?
    ensures Boundary(e, pre, post) && !Drops(pre, e)
    ensures post.window == Entered(pre, e.attempt).window && post.window.epoch == pre.window.epoch
  {
    hide Accepts, AdmitStep, AllowPairing, ObjectPath, NextEpoch;
    AdmitParts(pre, post, e.attempt);
  }

  lemma WriteBoundary(e: DaemonModel.Event, pre: Moment, post: Moment)
    requires e.Written? && WriteStep(pre, post, e.attempt)
    ensures Boundary(e, pre, post)
  {
    hide Accepts, AdmitStep, DenyStep, Boundary, AuthorizeSensitive, AllowPairing;
    if !LetIn(pre, e.attempt) || e.attempt.reply.Refused? {
      TurnedBoundary(e, pre, post);
    } else if Judgement(pre, e.attempt).Denied? {
      DenyBoundary(e, pre, post);
    } else {
      AdmitBoundary(e, pre, post);
    }
  }

  lemma TurnedBoundary(e: DaemonModel.Event, pre: Moment, post: Moment)
    requires e.Written? && WriteStep(pre, post, e.attempt) && (!LetIn(pre, e.attempt) || e.attempt.reply.Refused?)
    ensures Boundary(e, pre, post)
  {
    hide Accepts, AdmitStep, DenyStep, AuthorizeSensitive, AllowPairing;
  }

  /**
   ... and to the present window epoch: whatever moves the epoch empties the tables. While it
   stands, an owned window stands with it, and what has completed is forgotten in a drop only.
   */
  lemma EpochBoundary(e: DaemonModel.Event, pre: Moment, post: Moment)
    requires Handles(e, pre, post)
    ensures Boundary(e, pre, post)
  {
    hide WriteStep, Published, Swept, LetIn, NextEpoch;
    match e
    case Written(a) => WriteBoundary(e, pre, post);
    case Done(result, ended, now, noted, resweep) =>
      if pre.job.Working? {
        PublishedBoundary(pre.(job := Idle), post, pre.job.request.slot.peer, result, ended, now, noted, resweep);
      }
    case _ =>
  }

  /** The epoch moves on a press, at the window's end, with BlueZ, and when an accepted frame finds the window run out; never else. */
  lemma EpochMovesExactly(e: DaemonModel.Event, pre: Moment, post: Moment)
    requires Inv(pre) && Handles(e, pre, post)
    ensures post.window.epoch != pre.window.epoch <==>
            match e
            case Press(now) => now > 0
            case Shut => pre.window.open
            case Expiry(now) => pre.window.open && now >= pre.window.deadline
            case BluezLost => true
            case Written(a) => LetIn(pre, a) && !a.reply.Refused? && a.answer.value.connected && a.authorized >= pre.window.deadline
            case _ => false
    ensures e.Press? && e.now > 0 ==> post.window == Window(true, e.now + 120_000_000, post.window.epoch, "")
    ensures post.window.epoch != pre.window.epoch && !e.Press? && !e.BluezLost? ==> !post.window.open
    ensures e.BluezLost? ==> post.window == pre.window.(epoch := post.window.epoch, owner := "")
  {
    hide TablesOk, DigestOf, Distinct, Accepts, Remembers, WorkerMatches, Published, Swept, NextEpoch, WriteStep, ObjectPath;
    if e.Written? {
      WriteMoves(e, pre, post);
    }
    if e.Done? && pre.job.Working? {
      PublishedBoundary(pre.(job := Idle), post, pre.job.request.slot.peer, e.result, e.ended, e.now, e.noted, e.resweep);
    }
  }

  lemma WriteMoves(e: DaemonModel.Event, pre: Moment, post: Moment)
    requires Inv(pre) && e.Written? && WriteStep(pre, post, e.attempt)
    ensures var a := e.attempt;
      post.window.epoch != pre.window.epoch <==>
      LetIn(pre, a) && !a.reply.Refused? && a.answer.value.connected && a.authorized >= pre.window.deadline
    ensures post.window.epoch != pre.window.epoch ==> !post.window.open
  {
    hide TablesOk, DigestOf, Distinct, ObjectPath, Accepts, Remembers, WorkerMatches, AdmitStep, NextEpoch;
    var a := e.attempt;
    if LetIn(pre, a) && !a.reply.Refused? && Judgement(pre, a).Allowed? {
      AdmitBoundary(e, pre, post);
    }
  }

  /** An accepted frame whose sender is refused empties the tables; the window stands exactly if BlueZ had lost the sender. */
  lemma DroppedBy(a: Attempt, pre: Moment, post: Moment)
    requires Inv(pre) && WriteStep(pre, post, a) && LetIn(pre, a) && !a.reply.Refused? && Judgement(pre, a).Denied?
    ensures post.tables == EMPTY && post.completions == []
    ensures post.window == pre.window <==> !a.answer.value.connected
  {
    hide TablesOk, DigestOf, Distinct, ObjectPath, Accepts, Remembers, WorkerMatches;
  }

  /** The window epoch has stood from state `i` to state `k`. */
  ghost predicate SameWindow(states: seq<Moment>, i: nat, k: nat)
    requires i <= k < |states|
  {
    forall l :: i <= l <= k ==> states[l].window.epoch == states[k].window.epoch
  }

  /** Event `i` completes the name in the present window, and no drop has followed up to state `k`. */
  ghost predicate Lasting(states: seq<Moment>, events: seq<DaemonModel.Event>, i: nat, k: nat, tag: Tag)
    requires |states| == |events| + 1 && i < k <= |events|
  {
    && Completes(states[i], events[i]) && Named(events[i]) == tag && SameWindow(states, i, k)
    && forall l :: i < l < k ==> !Drops(states[l], events[l])
  }

  /** The list of completions holds exactly the names that completed in this window and since its last drop. */
  lemma {:induction false} ListedExactly(states: seq<Moment>, events: seq<DaemonModel.Event>, k: nat, tag: Tag)
    requires DaemonRun(states, events) && k <= |events|
    ensures tag in states[k].completions <==> exists i: nat :: i < k && Lasting(states, events, i, k, tag)
  {
    hide Handles, Drops, Completes, Inv;
    if k > 0 {
      var e, pre, post := events[k - 1], states[k - 1], states[k];
      ListedExactly(states, events, k - 1, tag);
      assert StepsAt(states, events, k - 1);
      AlwaysInv(states, events, k - 1);
      EpochBoundary(e, pre, post);
      if Completes(pre, e) {
        CompletingStep(e, pre, post);
      }
      if tag in post.completions {
        if tag in pre.completions {
          var i: nat :| i < k - 1 && Lasting(states, events, i, k - 1, tag);
          assert Lasting(states, events, i, k, tag);
        } else {
          assert Lasting(states, events, k - 1, k, tag);
        }
      }
      forall i: nat | i < k && Lasting(states, events, i, k, tag) ensures tag in post.completions {
        assert pre.window.epoch == post.window.epoch;
        if i < k - 1 {
          assert Lasting(states, events, i, k - 1, tag);
        }
      }
    }
  }

  lemma CompletingStep(e: DaemonModel.Event, pre: Moment, post: Moment)
    requires Inv(pre) && Handles(e, pre, post) && Completes(pre, e)
    ensures post.window.epoch == pre.window.epoch && !Drops(pre, e)
    ensures post.window.owner == Named(e).slot.peer != ""
  {
    hide WriteStep, Inv, TablesOk, Accepts, AcceptEffect, LetIn, AuthorizeSensitive;
    var a := e.attempt;
    WriteAccepts(pre, post, a);
    AdmitBoundary(e, pre, post);
    EnteredOwner(pre, a);
    assert AcceptEffect(pre.tables, a.accepted, a.slot, a.received, a.reply);
    EffectSlot(pre.tables, a.accepted, a.slot, a.received, a.reply);
  }

  lemma WriteAccepts(pre: Moment, post: Moment, a: Attempt)
    requires Inv(pre) && WriteStep(pre, post, a) && LetIn(pre, a)
    ensures Timed(pre, a) && AcceptEffect(pre.tables, a.accepted, a.slot, a.received, a.reply)
  {
    hide Accepts, AcceptEffect, TablesOk, AdmitStep, DenyStep, LetIn, OwnedByWindow, WorkerMatches, Remembers, AuthorizeSensitive;
    AcceptsEffect(pre.tables, a.swept, a.accepted, a.slot, a.value, a.received, a.reply);
  }

  lemma EffectSlot(pre: Tables, post: Tables, slot: Slot, now: int, reply: Reply)
    requires AcceptEffect(pre, post, slot, now, reply) && reply.Complete?
    ensures reply.request.slot == slot
  {
    hide TablesOk, DigestOf;
  }

  // ---------------------------------------------------------------- at most once

  /** What completes is not in the cache; nor has it completed since the last drop, if few enough have. */
  lemma CompletesUnknown(e: DaemonModel.Event, pre: Moment, post: Moment)
    requires Inv(pre) && Handles(e, pre, post) && Completes(pre, e)
    ensures Named(e) !in pre.tables.completed
    ensures |pre.completions| <= CACHE_LIMIT ==> Named(e) !in pre.completions
  {
    hide WriteStep, TablesOk, Accepts, DigestOf, Distinct, OwnedByWindow, WorkerMatches, AuthorizeSensitive, AllowPairing;
    var a := e.attempt;
    WriteAccepts(pre, post, a);
    ReceivedOpen(pre, a);
    if |pre.completions| <= CACHE_LIMIT {
      StillCached(pre, a.received);
    }
  }

  /** Within one window epoch a (peer, characteristic, id) completes twice only around a drop, or if more than 64 have completed. */
  lemma AtMostOnce(states: seq<Moment>, events: seq<DaemonModel.Event>, i: nat, j: nat)
    requires DaemonRun(states, events) && i < j < |events|
    requires Completes(states[i], events[i]) && Completes(states[j], events[j]) && Named(events[i]) == Named(events[j])
    requires SameWindow(states, i, j) && |states[j].completions| <= CACHE_LIMIT
    ensures exists d :: i < d < j && Drops(states[d], events[d])
  {
    hide Handles, Drops, Inv, LetIn;
    AlwaysInv(states, events, j);
    assert StepsAt(states, events, j);
    if forall d :: i < d < j ==> !Drops(states[d], events[d]) {
      ListedExactly(states, events, j, Named(events[i]));
      assert Lasting(states, events, i, j, Named(events[i]));
    }
    CompletesUnknown(events[j], states[j], states[j + 1]);
  }

  /** A result goes to its own requester, into its own request's cache entry, and nowhere else. */
  lemma ResultStaysWithItsRequest(e: DaemonModel.Event, pre: Moment, post: Moment)
    requires Inv(pre) && Handles(e, pre, post) && e.Done? && pre.job.Working?
    ensures var r := pre.job.request;
      && (forall t <- post.tables.completed :: t in pre.tables.completed && post.tables.completed[t].digest == pre.tables.completed[t].digest)
      && (forall t <- post.tables.completed :: t != DaemonModel.TagOf(r) ==> post.tables.completed[t] == pre.tables.completed[t])
      && (forall t <- post.tables.completed :: post.tables.completed[t].result != pre.tables.completed[t].result ==>
            t == DaemonModel.TagOf(r) && post.tables.completed[t].result == e.result && post.tables.completed[t].digest == DigestOf(r))
      && ((post.lastResult != pre.lastResult || post.resultPeer != pre.resultPeer) ==>
            && post.lastResult == e.result && post.resultPeer == r.slot.peer
            && pre.active == Some(DaemonModel.TagOf(r)) && pre.window.owner == r.slot.peer)
  {
    hide TablesOk, DigestOf, Distinct, ObjectPath, Remembers, TextOk, Marked;
  }

  /** The worker is only ever started for a transaction that completes in that very event. */
  lemma DispatchIsACompletion(e: DaemonModel.Event, pre: Moment, post: Moment)
    requires Handles(e, pre, post) && post.job.Working? && post.job != pre.job
    ensures Completes(pre, e) && pre.job.Idle? && e.attempt.reply == Complete(post.job.request)
    ensures post.completions == pre.completions + [DaemonModel.TagOf(post.job.request)]
    ensures post.job.windowEpoch == post.window.epoch && post.job.connectionEpoch == e.attempt.answer.value.connectionEpoch != 0
  {
    hide TablesOk, DigestOf, Distinct, ObjectPath, Accepts, Swept, Cached, NextEpoch, AllowPairing;
  }
}
