/** The daemon object (main.c) over its protocol engine and window, one method per callback. */
module Daemon {
  import opened Bytes
  import opened ProtocolKeys
  import opened Frame
  import opened Reassembly
  import opened ReassemblyRuns
  import opened Security
  import opened DaemonModel
  import opened Wrappers
  import opened Protocol

  class Daemon {
    const protocol: Protocol
    const security: WindowGuard
    /** The busy flag of EgpOperations and the work it stands for. */
    var job: Job
    /** active_valid and active_request. */
    var active: Option<Tag>
    var resultPeer: string
    var lastResult: seq<byte>
    ghost var clock: int
    ghost var completions: seq<Tag>

    ghost function Value(): Moment
      reads this, protocol, security
    {
      Moment(protocol.Tables(), security.Value(), job, active, resultPeer, lastResult, clock, completions)
    }

    ghost predicate Valid()
      reads this, protocol, security
    {
      Inv(Value())
    }

    constructor ()
      ensures Valid() && Value() == FIRST && fresh(protocol) && fresh(security)
    {
      protocol := new Protocol();
      security := new WindowGuard();
      job, active, resultPeer, lastResult := Idle, None, "", [];
      clock, completions := 0, [];
      new;
      FirstInv();
    }

    /** window_changed, and the same clearing in bluez_lost. */
    method Clear()
      modifies this, protocol
      ensures Value() == Cleared(old(Value()), security.Value())
    {
      protocol.DropAll();
      active, resultPeer, lastResult := None, "", [];
      completions := [];
    }

    /** physical_presence */
    method PhysicalPresence(now: int)
      requires Valid() && clock <= now <= CLOCK_MAX
      modifies this, protocol, security
      ensures Valid() && Handles(Press(now), old(Value()), Value())
    {
      hide Inv, NextEpoch;
      var notify := security.OpenWindow(now);
      if notify {
        Clear();
      }
      clock := now;
      StepInv(Press(now), old(Value()), Value());
    }

    /** egp_security_close_window with its callback: input_lost, and --one-shot after a success. */
    method CloseWindow()
      requires Valid()
      modifies this, protocol, security
      ensures Valid() && Handles(Shut, old(Value()), Value())
    {
      hide Inv, NextEpoch;
      var notify := security.CloseWindow();
      if notify {
        Clear();
      }
      StepInv(Shut, old(Value()), Value());
    }

    method ExpiryTick(now: int)
      requires Valid() && clock <= now <= CLOCK_MAX
      modifies this, protocol, security
      ensures Valid() && Handles(Expiry(now), old(Value()), Value())
    {
      hide Inv, NextEpoch;
      var notify := security.ExpiryTick(now);
      if notify {
        Clear();
      }
      clock := now;
      StepInv(Expiry(now), old(Value()), Value());
    }

    method BluezLost()
      requires Valid()
      modifies this, protocol, security
      ensures Valid() && Handles(DaemonModel.BluezLost, old(Value()), Value())
    {
      hide Inv, NextEpoch;
      security.BluezLost();
      Clear();
      StepInv(DaemonModel.BluezLost, old(Value()), Value());
    }

    method PeerDisconnected(peer: string)
      requires Valid()
      modifies protocol
      ensures Valid() && Handles(Disconnected(peer), old(Value()), Value())
    {
      hide Inv, TablesOk;
      TablesSound();
      protocol.DropPeer(peer);
      StepInv(Disconnected(peer), old(Value()), Value());
    }

    /** expire_protocol */
    method ExpireProtocol(now: int)
      requires Valid() && clock <= now <= CLOCK_MAX
      modifies this`clock, protocol
      ensures Valid() && Handles(Sweep(now), old(Value()), Value())
    {
      hide Inv, TablesOk, Swept;
      TablesSound();
      protocol.Expire(now);
      clock := now;
      StepInv(Sweep(now), old(Value()), Value());
    }

    lemma TablesSound()
      requires Valid()
      ensures TablesOk(protocol.Tables())
    {
    }

    /** result_published. `ended`: the text says SUCCEEDED or FAILED. */
    method PublishResult(peer: string, json: seq<byte>, ended: bool, now: int) returns (noted: bool, ghost resweep: Reassembly.Tables)
      requires TablesOk(protocol.Tables())
      modifies this`active, this`resultPeer, this`lastResult, this`clock, protocol
      ensures Published(old(Value()), Value(), peer, json, ended, now, noted, resweep)
    {
      hide Cached, TablesOk;
      noted, resweep := false, protocol.Tables();
      if active.None? || peer != active.value.slot.peer || json == [] || |json| > RESULT_MAX {
        clock := now;
        return;
      }
      noted, resweep := protocol.CacheResult(active.value, json, now);
      resultPeer, lastResult := peer, json;
      if ended {
        active := None;
      }
      clock := now;
    }

    /** read_value of OPERATION_RESULT */
    method ReadResult(peer: string, answer: Option<PeerSecurity>, now: int) returns (value: Option<seq<byte>>)
      modifies security
      ensures value == Readable(Value(), peer, answer, now) && Value() == old(Value())
    {
      if answer.None? {
        return None;
      }
      var verdict := security.Authorize(peer, answer.value, false, now);
      if verdict.Denied? || lastResult == [] || resultPeer != peer {
        return None;
      }
      value := Some(lastResult);
    }

    /** completed: the worker's last word, back in the main loop. */
    method Completed(result: seq<byte>, ended: bool, now: int) returns (ghost e: DaemonModel.Event)
      requires Valid() && !job.Idle? && clock <= now <= CLOCK_MAX
      modifies this, protocol
      ensures Valid() && e.Done? && e.result == result && e.now == now && e.ended == ended
      ensures Handles(e, old(Value()), Value())
    {
      hide Inv, TablesOk, Published;
      TablesSound();
      var finished := job;
      job := Idle;
      if finished.Working? {
        ghost var free := Value();
        var noted, resweep := PublishResult(finished.request.slot.peer, result, ended, now);
        e := Done(result, ended, now, noted, resweep);
      } else {
        clock := now;
        e := Done(result, ended, now, false, protocol.Tables());
      }
      StepInv(e, old(Value()), Value());
    }

    /** egp_operations_reconcile */
    method Reconcile() returns (started: bool)
      requires Valid()
      modifies this`job
      ensures Valid() && started == old(job).Idle? && Handles(DaemonModel.Reconcile, old(Value()), Value())
    {
      hide Inv;
      started := job.Idle?;
      if started {
        job := Reconciling;
      }
      StepInv(DaemonModel.Reconcile, old(Value()), Value());
    }

    /** egp_operations_submit; an empty `notice` is a result that could not be serialised. */
    method Submit(request: Request, windowEpoch: epoch, connectionEpoch: epoch, closing: bool, notice: seq<byte>, now: int)
      returns (ok: bool, noted: bool, ghost resweep: Reassembly.Tables)
      requires TablesOk(protocol.Tables()) && job.Idle?
      modifies this`job, this`active, this`resultPeer, this`lastResult, this`clock, protocol
      ensures ok == (!closing && notice != [])
      ensures !ok ==> Value() == Later(old(Value()), now)
      ensures ok ==> Published(old(Value()).(job := Working(request, windowEpoch, connectionEpoch)), Value(), request.slot.peer, notice,
                               false, now, noted, resweep)
    {
      hide TablesOk, Published;
      noted, resweep, ok := false, protocol.Tables(), false;
      if job.Idle? && !closing {
        job := Working(request, windowEpoch, connectionEpoch);
        if notice == [] {
          job := Idle;
        } else {
          ok := true;
          noted, resweep := PublishResult(request.slot.peer, notice, false, now);
          return;
        }
      }
      clock := now;
    }

    /** write_value once the protocol engine and the window have let the frame in; `pre` is the state before. */
    method Admit(w: Attempt, reply: Reply, ghost a: Attempt, ghost pre: Moment) returns (ok: bool, ghost b: Attempt)
      requires a == w.(reply := reply, swept := a.swept, accepted := a.accepted)
      requires TablesOk(protocol.Tables()) && job.Idle? && a.answer.Some? && !a.reply.Refused?
      requires a.reply.Complete? ==> a.reply.request.slot == a.slot
      requires Value() == pre.(tables := a.accepted, window := Claimed(pre.window, a.slot.peer, a.answer.value, true, a.authorized))
      modifies this, protocol
      ensures b == a.(noted := b.noted, resweep := b.resweep) && AdmitStep(pre, Value(), b)
    {
      hide TablesOk, Published, Claimed;
      ok, b := true, a;
      match reply
      case Pending =>
        clock := w.published;
      case Replay(_, cached) =>
        if 0 < |cached| <= RESULT_MAX {
          resultPeer, lastResult := w.slot.peer, cached;
        }
        clock := w.published;
      case Complete(request) =>
        completions := completions + [TagOf(request)];
        active := Some(TagOf(request));
        var noted; ghost var resweep;
        ok, noted, resweep := Submit(request, security.windowEpoch, w.answer.value.connectionEpoch, w.closing, w.notice, w.published);
        if !ok {
          active := None;
        }
        b := a.(noted := noted, resweep := resweep);
    }

    /** The sender of an accepted frame is refused: drop everything, and close a window found closed. */
    method Deny(now: int, reason: Reason, ghost a: Attempt, ghost pre: Moment)
      requires a.answer.Some? && Judgement(pre, a) == Denied(reason) && a.published == now
      requires Value() == pre.(tables := protocol.Tables())
      modifies this, protocol, security
      ensures Value() == Later(DenyStep(pre, a), a.published)
    {
      hide AuthorizeSensitive, NextEpoch;
      protocol.DropAll();
      completions := [];
      if reason.WindowClosed? {
        var notify := security.CloseWindow();
        if notify {
          Clear();
        }
      }
      clock := now;
    }

    /** write_value from egp_protocol_accept on. */
    method Receive(w: Attempt) returns (ok: bool, ghost a: Attempt)
      requires TablesOk(protocol.Tables()) && Timed(Value(), w) && AnswerOk(w) && LetIn(Value(), w)
      modifies this, protocol, security
      ensures WriteStep(old(Value()), Value(), a)
      ensures a == w.(reply := a.reply, swept := a.swept, accepted := a.accepted, noted := a.noted, resweep := a.resweep)
    {
      hide TablesOk, Accepts, AuthorizeSensitive, Claimed, AllowPairing, DenyStep, AdmitStep, AcceptEffect, Cleared, ObjectPath;
      ghost var pre := Value();
      ok := false;
      var reply; ghost var swept;
      reply, swept := protocol.Accept(w.slot, w.value, w.received);
      a := w.(reply := reply, swept := swept, accepted := protocol.Tables());
      AcceptsSlot(pre.tables, swept, a.accepted, w.slot, w.value, w.received, reply);
      if reply.Refused? {
        clock := w.published;
        return;
      }
      var verdict := security.Authorize(w.slot.peer, w.answer.value, true, w.authorized);
      if verdict.Denied? {
        DeniedUnclaimed(pre.window, w.slot.peer, w.answer.value, w.authorized);
        Deny(w.published, verdict.reason, a, pre);
      } else {
        ok, a := Admit(w, reply, a, pre);
      }
    }

    /** write_value. `w` holds what the environment will answer; `a` is the call as it went. */
    method WriteValue(w: Attempt) returns (ok: bool, ghost a: Attempt)
      requires Valid() && Timed(Value(), w) && AnswerOk(w)
      modifies this, protocol, security
      ensures Valid() && Handles(Written(a), old(Value()), Value())
      ensures a == w.(reply := a.reply, swept := a.swept, accepted := a.accepted, noted := a.noted, resweep := a.resweep)
    {
      hide Inv, TablesOk, Accepts, AuthorizeSensitive, Claimed, AllowPairing, DenyStep, AdmitStep;
      ghost var pre := Value();
      TablesSound();
      ok, a := false, w;
      if !job.Idle? || w.answer.None? || AllowPairing(security.Value(), w.slot.peer, w.paired).Denied? {
        clock := w.published;
      } else if !w.idle {
        protocol.DropPeer(w.slot.peer);
        clock := w.published;
      } else {
        hide WriteStep, Timed, AnswerOk;
        ok, a := Receive(w);
      }
      StepInv(Written(a), pre, Value());
    }
  }

  lemma DeniedUnclaimed(w: Window, peer: string, p: PeerSecurity, now: int)
    requires AuthorizeSensitive(w, peer, p, true, now).Denied?
    ensures Claimed(w, peer, p, true, now) == w
  {
  }

  lemma AcceptsSlot(pre: Reassembly.Tables, swept: Reassembly.Tables, post: Reassembly.Tables, slot: Slot, value: seq<byte>, now: int, reply: Reply)
    requires TablesOk(pre) && now <= CLOCK_MAX && Accepts(pre, swept, post, slot, value, now, reply)
    ensures reply.Complete? ==> reply.request.slot == slot
  {
    hide Accepts, TablesOk;
    AcceptsEffect(pre, swept, post, slot, value, now, reply);
  }
}
