/**
 The agent's run loop (main.c) over its per-state actions (services.c), process after process,
 with the power going whenever it likes.
 */
module OtaMain {
  import opened Wrappers
  import opened OtaModel
  import opened OtaHistory
  import opened OtaAgent
  import opened OtaPlan

  /** OtaPhaseResult, or the process died inside the phase. */
  datatype PhaseResult = Advance | Retry | HardFailure | Gone

  /** phase_may_retry. */
  predicate MayRetry(s: State) {
    s in {CheckUpdate, Downloading, VerifyDownload, RaucVerify, ReportSuccess, Error, Rollback}
  }

  /** What phase() may propose when it advances. */
  ghost predicate Advanced(w: World, release: Release, s: Persistent, next: Persistent) {
    match s.state
    case CheckNetwork => next == s.(state := CheckUpdate)
    case CheckUpdate =>
      || next == s.(state := Idle)
      || (next == s.(state := Precheck, targetVersion := next.targetVersion, buildId := next.buildId,
                     artifactUrl := next.artifactUrl, expectedSize := next.expectedSize,
                     expectedSha256 := next.expectedSha256) &&
          StrictlyNewer(next.targetVersion, release.version))
    case Precheck => next == s.(state := Downloading) && StrictlyNewer(s.targetVersion, release.version) && Done(w, s)
    case Downloading => next == s.(state := VerifyDownload) && Done(w, s)
    case VerifyDownload => next == s.(state := RaucVerify) && Done(w, s)
    case RaucVerify => next == s.(state := Installing) && Done(w, s)
    case Installing => next == s.(state := RebootPending) && s.attemptId in Summary(w.log).installs
    case HealthCheck =>
      && SlotSeen(w.pid, s.candidateSlot) in w.log && CandidateRelease(release, s)
      && (|| (next == s.(state := MarkGood) && HealthPassed(w.pid, s.attemptId) in w.log &&
              MarkReady(w.log, w.pid, s, false))
          || (next == s.(state := Rollback, lastError := next.lastError) && s.attemptId in Summary(w.log).bads))
    case MarkGood => next == s.(state := ReportSuccess) && s.attemptId in Summary(w.log).goods
    case ReportSuccess => next == s.(state := Idle) && Done(w, s)
    case Error => next == s
    case Rollback => next == s
    case _ => false
  }

  // ---------------------------------------------------------------- when nothing stands in the way

  /** What the action of a state proposes. */
  function Onward(luck: Luck, s: Persistent): Persistent {
    if s.state == CheckUpdate then
      s.(state := Precheck, targetVersion := luck.offer.version, buildId := luck.offer.buildId, artifactUrl := luck.offer.artifactUrl,
         expectedSize := luck.offer.size, expectedSha256 := luck.offer.sha256)
    else s.(state := OtaPlan.After(s.state))
  }

  /** The environment lets the action of the state succeed. */
  predicate Favours(luck: Option<Luck>, w: World, release: Release, s: Persistent) {
    luck.Some? &&
    match s.state
    case CheckUpdate => Admit(release, luck.value.offer) == Update
    case Precheck => Admit(release, AttemptManifest(release, s)) == Update
    case HealthCheck =>
      && Knows(luck, w) && luck.value.boots[w.bootId].slot == s.candidateSlot && luck.value.boots[w.bootId].healthy
      && CandidateRelease(release, s)
    case MarkGood => Knows(luck, w) && luck.value.boots[w.bootId].slot == s.candidateSlot && CandidateRelease(release, s)
    case Idle => false
    case RebootPending => false
    case BootNewSlot => false
    case Rollback => false
    case Error => false
    case _ => true
  }

  /** What run() makes of that proposal. */
  function Settled(luck: Luck, bootId: string, s: Persistent): Persistent {
    if s.state == CheckUpdate then Onward(luck, s).(attemptId := luck.id)
    else if s.state == RaucVerify && bootId in luck.boots then
      var slot := luck.boots[bootId].slot;
      Onward(luck, s).(bootIdBefore := bootId, previousSlot := slot, candidateSlot := Other(slot), context := RebootInstall)
    else if s.state == ReportSuccess then FRESH
    else Onward(luck, s)
  }

  /** ... if the id is a new one, and the slot one of the two. */
  predicate Settles(luck: Option<Luck>, w: World, s: Persistent) {
    && luck.Some?
    && (s.state == CheckUpdate ==> UuidV4(luck.value.id) && luck.value.id !in w.admitted)
    && (s.state == RaucVerify ==> Knows(luck, w) && luck.value.boots[w.bootId].slot != SlotUnknown)
  }

  predicate Goes(luck: Option<Luck>, w: World, release: Release, s: Persistent) {
    Favours(luck, w, release, s) && Settles(luck, w, s) && Follows(s, Settled(luck.value, w.bootId, s))
  }

  /** The candidate that is being checked is not well. */
  predicate Fails(luck: Option<Luck>, w: World, release: Release, s: Persistent) {
    && s.state == HealthCheck && Knows(luck, w) && luck.value.boots[w.bootId].slot == s.candidateSlot
    && !luck.value.boots[w.bootId].healthy && CandidateRelease(release, s) && Follows(s, Rolled(s))
  }

  /** The action of the state has succeeded for its attempt. */
  ghost predicate Done(w: World, s: Persistent) {
    Performed(s.state, s.attemptId) in w.log
  }

  ghost predicate SameFiles(w0: World, w1: World) {
    w1.visible == w0.visible && w1.possible == w0.possible
  }

  lemma GoodReady(w: World, release: Release, s: Persistent)
    requires Inv(w) && w.visible == Some(s) && s.state == MarkGood && Ready(w, s)
    requires CandidateRelease(release, s) && ReleaseRead(w.pid, release) in w.log
    ensures MarkReady(w.log, w.pid, s, true)
  {
    hide Inv, Summary, StrictlyNewer, ReleaseValid;
    RecordTells(w, s);
  }

  lemma BadReadyGrows(w0: World, w1: World, s: Persistent)
    requires Ready(w0, s) && s.state == HealthCheck && Later(w0, w1) && Summary(w1.log) == Summary(w0.log)
    ensures MarkReady(w1.log, w1.pid, s, false)
  {
    hide Summary;
    MarkReadyGrows(w0.log, w1.log, w0.pid, s, false);
  }

  /** The INSTALLING action: `rauc install`, once. */
  method InstallPhase(device: Device, s: Persistent) returns (r: PhaseResult)
    requires Inv(device.w) && device.w.visible == Some(s) && s.state == Installing && Ready(device.w, s)
    modifies device
    ensures Inv(device.w) && Later(old(device.w), device.w) && SameFiles(old(device.w), device.w)
    ensures r == Advance ==> s.attemptId in Summary(device.w.log).installs
    ensures r != Retry
    ensures device.luck.Some? ==> r == Advance
  {
    hide Inv, Summary;
    var w0 := device.w;
    var st := device.Install(s);
    SummarySnoc(w0.log, Installed(w0.pid, s.attemptId));
    r := if st == Ok then Advance else if st == Failed then HardFailure else Gone;
  }

  /** The HEALTH_CHECK action: go on to MARK_GOOD, or mark the candidate bad and roll back. */
  method HealthPhase(device: Device, release: Release, s: Persistent)
    returns (r: PhaseResult, next: Persistent, error: OtaError)
    requires Inv(device.w) && device.w.visible == Some(s) && s.state == HealthCheck && Ready(device.w, s)
    modifies device
    ensures Inv(device.w) && Later(old(device.w), device.w) && SameFiles(old(device.w), device.w)
    ensures r == Advance ==> Advanced(device.w, release, s, next)
    ensures r != Retry
    ensures Favours(device.luck, old(device.w), release, s) ==> r == Advance && next == s.(state := MarkGood)
    ensures Fails(device.luck, old(device.w), release, s) ==> r == Advance && next == s.(state := Rollback, lastError := UNHEALTHY)
  {
    hide Inv, Summary, MarkReady, CandidateRelease;
    error := *;
    if !CandidateRelease(release, s) {
      return HardFailure, s, error;
    }
    var w0 := device.w;
    var st;
    st, error := device.HealthCheck(s);
    if st == Ok {
      BadReadyGrows(w0, device.w, s);
      return Advance, s.(state := MarkGood), error;
    }
    if st == Dead {
      return Gone, s, error;
    }
    BadReadyGrows(w0, device.w, s);
    st := device.Mark(s, false);
    r := if st == Ok then Advance else if st == Failed then HardFailure else Gone;
    next := s.(state := Rollback, lastError := error);
  }

  /** The MARK_GOOD action. */
  method GoodPhase(device: Device, release: Release, s: Persistent) returns (r: PhaseResult)
    requires Inv(device.w) && device.w.visible == Some(s) && s.state == MarkGood && Ready(device.w, s)
    requires ReleaseRead(device.w.pid, release) in device.w.log
    modifies device
    ensures Inv(device.w) && Later(old(device.w), device.w) && SameFiles(old(device.w), device.w)
    ensures r == Advance ==> MarkedGood(device.w.pid, s) in device.w.log && s.attemptId in Summary(device.w.log).goods
    ensures r != Retry
    ensures Favours(device.luck, old(device.w), release, s) ==> r == Advance
  {
    hide Inv, Summary, MarkReady, CandidateRelease;
    if !CandidateRelease(release, s) {
      return HardFailure;
    }
    GoodReady(device.w, release, s);
    var st := device.Mark(s, true);
    r := if st == Ok then Advance else if st == Failed then HardFailure else Gone;
  }

  /** An action that only asks the network, the partial file or RAUC's verifier; `retries` if a failure may be tried again. */
  method Action(device: Device, s: Persistent, retries: bool) returns (r: PhaseResult)
    requires Inv(device.w)
    modifies device
    ensures Inv(device.w) && Later(old(device.w), device.w) && SameFiles(old(device.w), device.w)
    ensures Summary(device.w.log) == Summary(old(device.w).log)
    ensures r == Advance ==> Done(device.w, s)
    ensures r == Retry ==> retries && device.w == old(device.w)
    ensures device.luck.Some? ==> r == Advance
  {
    hide Inv, Summary;
    var st := device.Act(s);
    var again: bool := *;
    r := if st == Ok then Advance else if st == Dead then Gone else if retries && again then Retry else HardFailure;
  }

  /** phase(): only the action belonging to the current state. */
  method Phase(device: Device, release: Release, s: Persistent)
    returns (r: PhaseResult, next: Persistent, error: OtaError)
    requires Inv(device.w) && device.w.visible == Some(s) && Ready(device.w, s)
    requires ReleaseRead(device.w.pid, release) in device.w.log
    modifies device
    ensures Inv(device.w) && Later(old(device.w), device.w) && SameFiles(old(device.w), device.w)
    ensures r == Advance ==> Advanced(device.w, release, s, next)
    ensures r == Retry ==> device.w == old(device.w) && s.state in {CheckUpdate, Downloading, ReportSuccess, Error, Rollback}
    ensures s.state in {CheckNetwork, CheckUpdate, Error, Rollback} ==> device.w == old(device.w)
    ensures Favours(device.luck, old(device.w), release, s) ==> r == Advance && next == Onward(device.luck.value, s)
    ensures Fails(device.luck, old(device.w), release, s) ==> r == Advance && next == s.(state := Rollback, lastError := UNHEALTHY)
  {
    hide Inv, Summary, MarkReady, CandidateRelease, Ready, ReleaseValid, ManifestValid, StrictlyNewer, Follows;
    r, next, error := *, s, *;
    match s.state {
      case CheckNetwork =>
        r, next := Advance, s.(state := CheckUpdate);
      case CheckUpdate =>
        var manifest: Manifest, available: bool := *, *;
        if device.luck.Some? {
          r, manifest, available := Advance, device.luck.value.offer, true;
        }
        if r == Advance {
          var admission := Admit(release, manifest);
          if available && admission == Refused {
            r := HardFailure;
          } else if available && admission == Update {
            AdmitsExactlyUpgrades(release, manifest);
            next := s.(state := Precheck, targetVersion := manifest.version, buildId := manifest.buildId,
                       artifactUrl := manifest.artifactUrl, expectedSize := manifest.size,
                       expectedSha256 := manifest.sha256);
          } else {
            next := s.(state := Idle);
          }
        }
      case Precheck =>
        // the durable attempt must still be an upgrade; then the stale partial file is discarded
        if Admit(release, AttemptManifest(release, s)) != Update {
          r := HardFailure;
        } else {
          AdmitsExactlyUpgrades(release, AttemptManifest(release, s));
          r := Action(device, s, false);
          next := s.(state := Downloading);
        }
      case Downloading =>
        r := Action(device, s, true);
        next := s.(state := VerifyDownload);
      case VerifyDownload =>
        r := Action(device, s, false);
        next := s.(state := RaucVerify);
      case RaucVerify =>
        r := Action(device, s, false);
        next := s.(state := Installing);
      case Installing =>
        r := InstallPhase(device, s);
        next := s.(state := RebootPending);
      case HealthCheck =>
        r, next, error := HealthPhase(device, release, s);
      case MarkGood =>
        r := GoodPhase(device, release, s);
        next := s.(state := ReportSuccess);
      case ReportSuccess =>
        r := Action(device, s, true);
        next := s.(state := Idle);
      case Error =>
      case Rollback =>
      case _ =>
        r := HardFailure;
    }
  }

  // ---------------------------------------------------------------- run

  /** Leave the loop, or go round again. */
  datatype Turn = Exit | Again

  /** What holds at the head of run()'s loop. */
  ghost predicate AtHead(w: World, current: Persistent, release: Release) {
    && Inv(w) && w.visible == Some(current) && Ready(w, current)
    && ReleaseRead(w.pid, release) in w.log && BootSeen(w.pid, w.bootId) in w.log
  }

  /** AtHead without what the state itself promises: enough to fall back or to move on. */
  ghost predicate AtHead0(w: World, current: Persistent, release: Release) {
    && Inv(w) && w.visible == Some(current)
    && ReleaseRead(w.pid, release) in w.log && BootSeen(w.pid, w.bootId) in w.log
  }

  lemma HeadEvidenceKept(w0: World, w1: World, release: Release)
    requires Later(w0, w1) && ReleaseRead(w0.pid, release) in w0.log && BootSeen(w0.pid, w0.bootId) in w0.log
    ensures ReleaseRead(w1.pid, release) in w1.log && BootSeen(w1.pid, w1.bootId) in w1.log
  {
    Kept(w0.log, w1.log, ReleaseRead(w0.pid, release));
    Kept(w0.log, w1.log, BootSeen(w0.pid, w0.bootId));
  }

  lemma FreshAttempt(w: World, id: string)
    requires Inv(w) && id !in w.admitted
    ensures var d := Summary(w.log); id !in d.installs && id !in d.goods && id !in d.bads
  {
    hide Lawful, Summary, AdmissionsOk, FileOk;
  }

  /** A new attempt gets its id (line 168). */
  method AssignId(device: Device, release: Release, s: Persistent, proposed: Persistent)
    returns (st: Status, next: Persistent)
    requires Inv(device.w) && device.w.visible == Some(s) && s.lastError.code == NoError
    requires s.state == CheckUpdate && proposed.state == Precheck && Advanced(device.w, release, s, proposed)
    modifies device
    ensures Inv(device.w) && Later(old(device.w), device.w) && SameFiles(old(device.w), device.w)
    ensures st == Ok ==> Proposal(device.w, s, next) && next == proposed.(attemptId := next.attemptId)
    ensures st == Ok ==> next.attemptId !in old(device.w).admitted && UuidV4(next.attemptId)
    ensures Settles(device.luck, old(device.w), s) ==> st == Ok && next == proposed.(attemptId := device.luck.value.id)
  {
    hide Inv, Summary, StrictlyNewer, MarkReady;
    RecordTells(device.w, s);
    var w0 := device.w;
    var id;
    st, id := device.NewAttempt(release.version, proposed.targetVersion, proposed.buildId);
    next := proposed.(attemptId := id);
    if st == Ok {
      FreshAttempt(w0, id);
    }
  }

  /** The slots and the boot identity are captured before an install (lines 170-184). */
  method CaptureBoot(device: Device, s: Persistent, proposed: Persistent) returns (st: Status, next: Persistent)
    requires Inv(device.w) && device.w.visible == Some(s)
    requires s.state == RaucVerify && proposed == s.(state := Installing) && Done(device.w, s)
    modifies device
    ensures Inv(device.w) && Later(old(device.w), device.w) && SameFiles(old(device.w), device.w)
    ensures st == Ok ==> Proposal(device.w, s, next) && CapturedBoot(device.w, s, next)
    ensures Settles(device.luck, old(device.w), s) ==> st == Ok && next == Settled(device.luck.value, device.w.bootId, s)
  {
    hide Inv, Summary, MarkReady;
    ghost var w0 := device.w;
    var slot;
    next := proposed;
    st, slot := device.CurrentSlot();
    if st == Ok && slot != SlotA && slot != SlotB {
      st := Failed;
    }
    if st != Ok {
      return;
    }
    ghost var seen := device.w.log;
    st := device.ReadBootId();
    if st == Ok {
      Kept(seen, device.w.log, SlotSeen(device.w.pid, slot));
      Kept(w0.log, device.w.log, Performed(s.state, s.attemptId));
    }
    next := next.(bootIdBefore := device.w.bootId, previousSlot := slot,
                  candidateSlot := if slot == SlotA then SlotB else SlotA, context := RebootInstall);
  }

  /** INSTALLING as run() records it: the running slot is the previous one, the other the candidate. */
  ghost predicate CapturedBoot(w: World, s: Persistent, next: Persistent) {
    && next == s.(state := Installing, bootIdBefore := w.bootId, previousSlot := next.previousSlot,
                  candidateSlot := next.candidateSlot, context := RebootInstall)
    && {next.previousSlot, next.candidateSlot} == {SlotA, SlotB}
    && SlotSeen(w.pid, next.previousSlot) in w.log
  }

  /** What run() makes of an advancing phase (lines 168-190). */
  method Complete(device: Device, release: Release, s: Persistent, proposed: Persistent)
    returns (st: Status, next: Persistent)
    requires Inv(device.w) && device.w.visible == Some(s) && s.lastError.code == NoError
    requires s.state == Installing ==> s.bootIdBefore == device.w.bootId
    requires Advanced(device.w, release, s, proposed)
    modifies device
    ensures Inv(device.w) && Later(old(device.w), device.w) && SameFiles(old(device.w), device.w)
    ensures st == Ok ==> Proposal(device.w, s, next)
    ensures st == Ok && s.state == RaucVerify ==> CapturedBoot(device.w, s, next)
    ensures st == Ok && proposed.state == Rollback ==>
              next == proposed.(context := RebootHealthFailure, lastError := next.lastError)
    ensures s.state == HealthCheck && proposed == s.(state := Rollback, lastError := UNHEALTHY) ==> st == Ok && next == Rolled(s)
    ensures st == Ok && proposed.state == Idle ==> next == FRESH
    ensures st == Ok && proposed.state !in {Precheck, Installing, Rollback, Idle} ==> next == proposed
    ensures s.state == CheckNetwork ==> device.w == old(device.w)
    ensures Settles(device.luck, old(device.w), s) && proposed == Onward(device.luck.value, s) ==>
              st == Ok && next == Settled(device.luck.value, device.w.bootId, s)
  {
    hide Inv, Summary, MarkReady, CandidateRelease, StrictlyNewer;
    RecordTells(device.w, s);
    st, next := Ok, proposed;
    if s.state == CheckUpdate && next.state == Precheck {
      st, next := AssignId(device, release, s, proposed);
    } else if s.state == RaucVerify && next.state == Installing {
      st, next := CaptureBoot(device, s, proposed);
    } else if s.state == HealthCheck && next.state == Rollback {
      var message: string := *;
      next := next.(context := RebootHealthFailure,
                    lastError := if next.lastError.code == NoError then OtaError(HealthFailed, message)
                                 else next.lastError);
    } else if next.state == Idle {
      next := FRESH;
    }
  }

  /** Move to `next`, and after a health rollback ask for the reboot at once (lines 192-195). */
  method MoveOn(m: StateMachine, next: Persistent, release: Release) returns (turn: Turn)
    requires !m.blocked && AtHead0(m.device.w, m.current, release) && m.current.lastError.code == NoError
    requires Proposal(m.device.w, m.current, next)
    modifies m, m.device
    ensures Inv(m.device.w) && Later(old(m.device.w), m.device.w)
    ensures turn == Again ==> !m.blocked && AtHead(m.device.w, m.current, release) && m.current == next
    ensures turn == Again ==> Follows(old(m.current), next)
    ensures turn == Again ==> !(next.state == Rollback && next.context == RebootHealthFailure)
    ensures turn == Again ==> m.device.w.admitted == old(m.device.w).admitted
    ensures m.device.luck.Some? && Follows(old(m.current), next) && next.state != Rollback ==> turn == Again
    ensures m.device.luck.Some? && Follows(old(m.current), next) && next.state == Rollback && next.context == RebootHealthFailure ==>
              turn == Exit && Rebooting(m.device.w, next)
  {
    hide Inv, Summary, Ready, Follows, Valid;
    var w0, s := m.device.w, m.current;
    var st := m.Transition(next);
    MoveKeeps(w0, m.device.w, s, next, st);
    if st != Ok {
      return Exit;
    }
    ProposalReady(w0, m.device.w, s, next);
    HeadEvidenceKept(w0, m.device.w, release);
    if m.current.state == Rollback && m.current.context == RebootHealthFailure {
      Kept(w0.log, m.device.w.log, SlotSeen(w0.pid, s.candidateSlot));
      var rebooted := m.Reboot();
      return Exit;
    }
    turn := Again;
  }

  /** Fall back to ERROR and go round again to report it. */
  method FailOver(m: StateMachine, error: OtaError, release: Release) returns (turn: Turn)
    requires !m.blocked && AtHead0(m.device.w, m.current, release) && m.current.lastError.code == NoError
    modifies m, m.device
    ensures Inv(m.device.w) && Later(old(m.device.w), m.device.w)
    ensures turn == Again ==> !m.blocked && AtHead(m.device.w, m.current, release)
    ensures turn == Again ==> m.current == Failure(old(m.current), error) && Follows(old(m.current), m.current)
  {
    hide Inv, Summary, Ready, Follows;
    ghost var w0 := m.device.w;
    var st := m.Fail(error);
    if st == Ok {
      HeadEvidenceKept(w0, m.device.w, release);
    }
    turn := if st == Ok then Again else Exit;
  }

  /** The slot is looked up once more before mark-good (lines 123-132). */
  method GuardGood(m: StateMachine, release: Release) returns (proceed: bool, turn: Turn)
    requires !m.blocked && AtHead(m.device.w, m.current, release) && m.current.lastError.code == NoError
    modifies m, m.device
    ensures Inv(m.device.w) && Later(old(m.device.w), m.device.w)
    ensures proceed || turn == Again ==> !m.blocked && AtHead(m.device.w, m.current, release)
    ensures proceed ==> m.current == old(m.current)
    ensures proceed && m.current.state == MarkGood ==>
              SlotSeen(m.device.w.pid, m.current.candidateSlot) in m.device.w.log
    ensures !proceed && turn == Again ==> Follows(old(m.current), m.current)
    ensures old(m.current.state) != MarkGood ==> proceed && m.device.w == old(m.device.w)
    ensures Favours(m.device.luck, old(m.device.w), release, old(m.current)) ==> proceed
  {
    hide Inv, Summary, Follows, HealthyCandidate, MarkReady;
    var s := m.current;
    ghost var w0 := m.device.w;
    if s.state != MarkGood {
      return true, Again;
    }
    var st, slot := m.device.CurrentSlot();
    if st == Dead {
      return false, Exit;
    }
    HeadEvidenceKept(w0, m.device.w, release);
    if st == Failed || slot != s.candidateSlot {
      var message: string := *;
      turn := FailOver(m, OtaError(IdentityAmbiguous, message), release);
      return false, turn;
    }
    GoodReadyKept(w0, m.device.w, s);
    return true, Again;
  }

  /** One turn of run()'s loop for a state with an action (lines 121-191). */
  method ActiveTurn(m: StateMachine, release: Release) returns (turn: Turn)
    requires !m.blocked && AtHead(m.device.w, m.current, release) && m.current.lastError.code == NoError
    requires m.current.state !in {Idle, RebootPending, Error, Rollback}
    modifies m, m.device
    ensures Inv(m.device.w) && Later(old(m.device.w), m.device.w)
    ensures turn == Again ==> !m.blocked && AtHead(m.device.w, m.current, release)
    ensures turn == Again ==> m.current == old(m.current) || Follows(old(m.current), m.current)
    ensures Goes(m.device.luck, old(m.device.w), release, old(m.current)) ==>
              turn == Again && m.current == Settled(m.device.luck.value, m.device.w.bootId, old(m.current))
    ensures Goes(m.device.luck, old(m.device.w), release, old(m.current)) && old(m.current.state) == CheckNetwork ==>
              m.device.w.admitted == old(m.device.w).admitted
    ensures turn == Again && old(m.current.state) == ReportSuccess && m.current.state == Idle ==> Done(m.device.w, old(m.current))
    ensures Fails(m.device.luck, old(m.device.w), release, old(m.current)) ==> turn == Exit && Rebooting(m.device.w, Rolled(old(m.current)))
  {
    hide Inv, Summary, Advanced, Proposal, HealthyCandidate, MarkReady, Follows, Settled, Onward, Favours, Settles, Rebooting, CandidateRelease;
    var s := m.current;
    var proceed;
    proceed, turn := GuardGood(m, release);
    if !proceed {
      return;
    }
    FavoursStill(m.device.luck, old(m.device.w), m.device.w, release, s);
    turn := PhaseTurn(m, release);
  }

  /** ... once that is settled (lines 133-191). */
  method PhaseTurn(m: StateMachine, release: Release) returns (turn: Turn)
    requires !m.blocked && AtHead(m.device.w, m.current, release) && m.current.lastError.code == NoError
    requires m.current.state !in {Idle, RebootPending, Error, Rollback}
    modifies m, m.device
    ensures Inv(m.device.w) && Later(old(m.device.w), m.device.w)
    ensures turn == Again ==> !m.blocked && AtHead(m.device.w, m.current, release)
    ensures turn == Again ==> m.current == old(m.current) || Follows(old(m.current), m.current)
    ensures Goes(m.device.luck, old(m.device.w), release, old(m.current)) ==>
              turn == Again && m.current == Settled(m.device.luck.value, m.device.w.bootId, old(m.current))
    ensures Goes(m.device.luck, old(m.device.w), release, old(m.current)) && old(m.current.state) == CheckNetwork ==>
              m.device.w.admitted == old(m.device.w).admitted
    ensures turn == Again && old(m.current.state) == ReportSuccess && m.current.state == Idle ==> Done(m.device.w, old(m.current))
    ensures Fails(m.device.luck, old(m.device.w), release, old(m.current)) ==> turn == Exit && Rebooting(m.device.w, Rolled(old(m.current)))
  {
    hide Inv, Summary, Advanced, HealthyCandidate, MarkReady, Follows, Settled, Onward, Favours, Settles, Ready, Rebooting, CandidateRelease;
    var s := m.current;
    ghost var w0 := m.device.w;
    InstalledBoot(w0, s);
    var result, proposed, error := Phase(m.device, release, s);
    HeadEvidenceKept(w0, m.device.w, release);
    if result == Gone {
      return Exit;
    }
    if result == Retry {
      if MayRetry(s.state) {
        ReplaySafeReady(m.device.w, s);
        return Again;
      }
      result := HardFailure;
    }
    if result != Advance {
      if s.state == ReportSuccess {
        return Exit;
      }
      turn := FailOver(m, if error.code == NoError then OtaError(IllegalTransition, error.message) else error, release);
      return;
    }
    SettlesStill(m.device.luck, w0, m.device.w, s);
    turn := Proceed(m, release, proposed, error);
  }

  lemma InstalledBoot(w: World, s: Persistent)
    requires Ready(w, s)
    ensures s.state == Installing ==> s.bootIdBefore == w.bootId
  {
    hide Summary, MarkReady, HealthyCandidate;
  }

  lemma FavoursStill(luck: Option<Luck>, w0: World, w1: World, release: Release, s: Persistent)
    requires Later(w0, w1) && (s.state == CheckUpdate ==> w1 == w0)
    ensures Favours(luck, w0, release, s) ==> Favours(luck, w1, release, s)
    ensures Settles(luck, w0, s) ==> Settles(luck, w1, s)
  {
    hide Admit;
  }

  lemma SettlesStill(luck: Option<Luck>, w0: World, w1: World, s: Persistent)
    requires Later(w0, w1) && (s.state == CheckUpdate ==> w1 == w0)
    ensures Settles(luck, w0, s) ==> Settles(luck, w1, s)
  {
  }

  /** The rest of the turn after an action that advances (lines 168-191). */
  method Proceed(m: StateMachine, release: Release, proposed: Persistent, error: OtaError) returns (turn: Turn)
    requires !m.blocked && AtHead0(m.device.w, m.current, release) && m.current.lastError.code == NoError
    requires m.current.state == Installing ==> m.current.bootIdBefore == m.device.w.bootId
    requires Advanced(m.device.w, release, m.current, proposed)
    modifies m, m.device
    ensures Inv(m.device.w) && Later(old(m.device.w), m.device.w)
    ensures turn == Again ==> !m.blocked && AtHead(m.device.w, m.current, release)
    ensures turn == Again ==> Follows(old(m.current), m.current)
    ensures turn == Again && old(m.current.state) == CheckNetwork ==> m.device.w.admitted == old(m.device.w).admitted
    ensures Settles(m.device.luck, old(m.device.w), old(m.current)) && proposed == Onward(m.device.luck.value, old(m.current)) &&
            Follows(old(m.current), Settled(m.device.luck.value, m.device.w.bootId, old(m.current))) ==>
              turn == Again && m.current == Settled(m.device.luck.value, m.device.w.bootId, old(m.current))
    ensures turn == Again && old(m.current.state) == ReportSuccess && m.current.state == Idle ==> Done(m.device.w, old(m.current))
    ensures m.device.luck.Some? && old(m.current.state) == HealthCheck && Follows(old(m.current), Rolled(old(m.current))) &&
            proposed == old(m.current).(state := Rollback, lastError := UNHEALTHY) ==>
              turn == Exit && Rebooting(m.device.w, Rolled(old(m.current)))
  {
    hide Inv, Summary, Advanced, Proposal, Follows, Settles, Ready, Rebooting;
    var s := m.current;
    ghost var w0 := m.device.w;
    NoRollBack(m.device.luck, w0, s);
    AdvancedDone(w0, release, s, proposed);
    var st, next := Complete(m.device, release, s, proposed);
    HeadEvidenceKept(w0, m.device.w, release);
    if st == Failed && s.state == RaucVerify {
      turn := FailOver(m, OtaError(RebootContextInvalid, error.message), release);
      return;
    }
    if st != Ok {
      return Exit;
    }
    turn := MoveOn(m, next, release);
    if s.state == ReportSuccess {
      Kept(w0.log, m.device.w.log, Performed(s.state, s.attemptId));
    }
  }

  lemma AdvancedDone(w: World, release: Release, s: Persistent, next: Persistent)
    requires Advanced(w, release, s, next)
    ensures s.state == ReportSuccess ==> Done(w, s)
  {
    hide Summary;
  }

  lemma NoRollBack(luck: Option<Luck>, w: World, s: Persistent)
    ensures Settles(luck, w, s) ==> luck.Some? && Settled(luck.value, w.bootId, s).state != Rollback
  {
  }

  /** ERROR and ROLLBACK only report; whatever comes of that, the record stays (lines 145-167). */
  method TerminalTurn(m: StateMachine, release: Release) returns (turn: Turn)
    requires !m.blocked && AtHead(m.device.w, m.current, release)
    requires m.current.state == Error || m.current.state == Rollback
    modifies m.device
    ensures m.device.w == old(m.device.w)
  {
    hide Inv, Summary, Advanced;
    var result, proposed, error := Phase(m.device, release, m.current);
    turn := if result == Retry then Again else Exit;
  }

  /** IDLE: wait for the poll interval or a request, then start a cycle (lines 108-119). */
  method IdleTurn(m: StateMachine, release: Release) returns (turn: Turn)
    requires !m.blocked && AtHead(m.device.w, m.current, release) && m.current.state == Idle
    requires m.current.lastError.code == NoError && !HasAttempt(m.current)
    modifies m, m.device
    ensures Inv(m.device.w) && Later(old(m.device.w), m.device.w)
    ensures turn == Again ==> !m.blocked && AtHead(m.device.w, m.current, release)
    ensures turn == Again ==> m.current == old(m.current).(state := CheckNetwork)
    ensures turn == Again ==> m.device.w.admitted == old(m.device.w).admitted
    ensures m.device.luck.Some? && Follows(old(m.current), old(m.current).(state := CheckNetwork)) ==> turn == Again
    ensures turn == Again ==> Follows(old(m.current), m.current)
  {
    hide Inv, Summary, Follows, Ready;
    turn := *;
    if turn == Exit && m.device.luck.None? {
      return;
    }
    turn := MoveOn(m, m.current.(state := CheckNetwork), release);
  }

  /** One round of run()'s loop. */
  method OneTurn(m: StateMachine, release: Release) returns (turn: Turn)
    requires !m.blocked && AtHead(m.device.w, m.current, release)
    modifies m, m.device
    ensures Inv(m.device.w) && Later(old(m.device.w), m.device.w)
    ensures turn == Again ==> !m.blocked && AtHead(m.device.w, m.current, release)
    ensures Turned(m.device.luck, old(m.device.w), m.device.w, release, old(m.current), m.current, turn)
  {
    hide Inv, Summary, Ready, Follows, Settled, Settles;
    RecordTells(m.device.w, m.current);
    if m.current.state == RebootPending {
      PendingBoot(m.device.w, m.current);
      var rebooted := m.Reboot();
      turn := Exit;
    } else if m.current.state == Idle {
      FirstFollows();
      turn := IdleTurn(m, release);
    } else if m.current.state == Error || m.current.state == Rollback {
      turn := TerminalTurn(m, release);
    } else {
      turn := ActiveTurn(m, release);
    }
  }

  lemma FirstFollows()
    ensures Follows(FRESH, FRESH.(state := CheckNetwork))
  {
  }

  /** The reboot into `s` is asked for, and `s` is all that is on disk. */
  ghost predicate Rebooting(w: World, s: Persistent) {
    RebootAsked(w.pid, s) in w.log && w.visible == Some(s) && w.possible == {Some(s)}
  }

  /** The attempt has been marked good, and its success reported. */
  ghost predicate Succeeded(h: seq<Event>, id: string) {
    Performed(ReportSuccess, id) in h && exists pid, s :: MarkedGood(pid, s) in h && s.attemptId == id
  }

  /** The first life of an update: from IDLE to the reboot. */
  predicate Installs(luck: Option<Luck>, w: World, release: Release, s: Persistent) {
    && luck.Some? && Offers(luck.value, w.bootId) && release == luck.value.boots[w.bootId].release
    && Index(s.state) <= 8 && s == Planned(luck.value, w.bootId, luck.value.boots[w.bootId].slot, s.state)
    && (Index(s.state) <= 2 ==> luck.value.id !in w.admitted)
  }

  /** The second: from the health check in the candidate slot to IDLE. */
  predicate Confirms(luck: Option<Luck>, before: string, w: World, release: Release, s: Persistent) {
    && luck.Some? && Offers(luck.value, before) && Upgraded(luck.value, before, w.bootId)
    && release == luck.value.boots[w.bootId].release
    && 10 <= Index(s.state) <= 12 && s == Planned(luck.value, before, luck.value.boots[before].slot, s.state)
  }

  lemma InstallsGoes(luck: Option<Luck>, w: World, release: Release, s: Persistent)
    requires Installs(luck, w, release, s) && 1 <= Index(s.state) <= 7
    ensures Goes(luck, w, release, s)
    ensures Settled(luck.value, w.bootId, s) == Planned(luck.value, w.bootId, luck.value.boots[w.bootId].slot, OtaPlan.After(s.state))
  {
    hide Follows, Admit, UuidV4;
    PlanFollows(luck.value, w.bootId, s.state);
    StillAdmitted(luck.value, release);
  }

  /** The second look at the offer, from the record, gives the same answer. */
  lemma StillAdmitted(luck: Luck, release: Release)
    requires Admit(release, luck.offer) == Update
    ensures Admit(release, AttemptManifest(release, Offered(luck))) == Update
  {
    hide CleanText, ArtifactPath, Sha256Text;
  }

  lemma ConfirmsGoes(luck: Option<Luck>, before: string, w: World, release: Release, s: Persistent)
    requires Confirms(luck, before, w, release, s)
    ensures Goes(luck, w, release, s)
    ensures Settled(luck.value, w.bootId, s) == if s.state == ReportSuccess then FRESH
            else Planned(luck.value, before, luck.value.boots[before].slot, OtaPlan.After(s.state))
  {
    hide Follows, Admit, UuidV4, ReleaseValid;
    if s.state == ReportSuccess {
      PlanEnds(luck.value, before, luck.value.boots[before].slot);
    } else {
      PlanFollows(luck.value, before, s.state);
    }
  }

  lemma SuccessIsMarked(w: World, s: Persistent)
    requires Inv(w) && w.visible == Some(s) && s.state == ReportSuccess
    ensures exists pid, r :: MarkedGood(pid, r) in w.log && r.attemptId == s.attemptId
  {
    hide Inv, Summary;
    VisibleEarned(w, s);
    var pid, r := MarkRecorded(w.log, s.attemptId, true);
  }

  lemma SucceededKept(w0: World, w1: World, id: string)
    requires Later(w0, w1) && Succeeded(w0.log, id)
    ensures Succeeded(w1.log, id)
  {
    var pid, s :| MarkedGood(pid, s) in w0.log && s.attemptId == id;
    Kept(w0.log, w1.log, MarkedGood(pid, s));
    Kept(w0.log, w1.log, Performed(ReportSuccess, id));
  }

  function Pending(luck: Luck, bootId: string): Persistent {
    Planned(luck, bootId, if bootId in luck.boots then luck.boots[bootId].slot else SlotUnknown, RebootPending)
  }

  lemma LuckIsThere(luck: Option<Luck>, before: string, w: World, release: Release, s: Persistent)
    ensures Installs(luck, w, release, s) ==> luck.Some? && Index(s.state) <= 8
    ensures Confirms(luck, before, w, release, s) ==> luck.Some? && 10 <= Index(s.state) <= 12
  {
    hide Planned, Offers, Upgraded;
  }

  lemma AfterInstall(luck: Option<Luck>, w0: World, w1: World, release: Release, s: Persistent)
    requires Installs(luck, w0, release, s) && Later(w0, w1) && s.state != RebootPending
    requires Index(s.state) <= 1 ==> w1.admitted == w0.admitted
    ensures Installs(luck, w1, release, Planned(luck.value, w1.bootId, luck.value.boots[w1.bootId].slot, OtaPlan.After(s.state)))
    ensures Index(OtaPlan.After(s.state)) == Index(s.state) + 1
    ensures Planned(luck.value, w1.bootId, luck.value.boots[w1.bootId].slot, OtaPlan.After(s.state)).state == OtaPlan.After(s.state)
    ensures Index(s.state) == 0 ==>
              FRESH.(state := CheckNetwork) == Planned(luck.value, w1.bootId, luck.value.boots[w1.bootId].slot, OtaPlan.After(s.state))
  {
    hide Offers;
    assert w1.bootId in luck.value.boots by { OffersKnows(luck.value, w1.bootId); }
  }

  lemma OffersKnows(luck: Luck, bootId: string)
    requires Offers(luck, bootId)
    ensures bootId in luck.boots
  {
  }

  lemma AfterCheck(luck: Option<Luck>, before: string, w0: World, w1: World, release: Release, s: Persistent)
    requires Confirms(luck, before, w0, release, s) && Later(w0, w1) && s.state != ReportSuccess
    ensures Confirms(luck, before, w1, release, Planned(luck.value, before, luck.value.boots[before].slot, OtaPlan.After(s.state)))
    ensures Index(OtaPlan.After(s.state)) == Index(s.state) + 1
    ensures Planned(luck.value, before, luck.value.boots[before].slot, OtaPlan.After(s.state)).state == OtaPlan.After(s.state)
  {
    hide Admit, UuidV4, CandidateRelease;
  }

  lemma AfterReport(luck: Option<Luck>, before: string, w0: World, w1: World, release: Release, s: Persistent)
    requires Inv(w0) && w0.visible == Some(s) && Confirms(luck, before, w0, release, s) && s.state == ReportSuccess
    requires Later(w0, w1) && Done(w1, s)
    ensures Succeeded(w1.log, luck.value.id)
  {
    hide Inv, Admit, UuidV4, CandidateRelease;
    SuccessIsMarked(w0, s);
    var pid, r :| MarkedGood(pid, r) in w0.log && r.attemptId == s.attemptId;
    Kept(w0.log, w1.log, MarkedGood(pid, r));
  }

  /** What a round did, as far as the plan depends on it. */
  ghost predicate Turned(luck: Option<Luck>, w0: World, w1: World, release: Release, s: Persistent, t: Persistent, turn: Turn) {
    && Later(w0, w1)
    && (luck.Some? && s.state == RebootPending ==> turn == Exit && Rebooting(w1, s))
    && (luck.Some? && s == FRESH ==> turn == Again && t == FRESH.(state := CheckNetwork) && w1.admitted == w0.admitted)
    && (Goes(luck, w0, release, s) ==> turn == Again && t == Settled(luck.value, w1.bootId, s))
    && (Goes(luck, w0, release, s) && s.state == CheckNetwork ==> w1.admitted == w0.admitted)
    && (turn == Again && s.state == ReportSuccess && t.state == Idle ==> Done(w1, s))
    && (Fails(luck, w0, release, s) ==> turn == Exit && Rebooting(w1, Rolled(s)))
  }

  /** On the way to the reboot with `left` rounds to go, or there. */
  ghost predicate Underway(luck: Option<Luck>, w: World, release: Release, s: Persistent, left: nat, turn: Turn) {
    luck.Some? &&
    if turn == Exit then Rebooting(w, Pending(luck.value, w.bootId))
    else Installs(luck, w, release, s) && left + Index(s.state) >= 9
  }

  lemma InstallTurn(luck: Option<Luck>, w0: World, w1: World, release: Release, s: Persistent, t: Persistent, left: nat, turn: Turn)
    requires Installs(luck, w0, release, s) && left + 1 + Index(s.state) >= 9 && Turned(luck, w0, w1, release, s, t, turn)
    ensures Underway(luck, w1, release, t, left, turn)
  {
    hide Goes, Settled, Offers, Rebooting, Installs, Planned;
    LuckIsThere(luck, "", w0, release, s);
    StateIs(s);
    if s.state == RebootPending {
      PendingIs(luck, w0, release, s);
    } else {
      if 1 <= Index(s.state) <= 7 {
        InstallsGoes(luck, w0, release, s);
      } else {
        FreshIs(luck, w0, release, s);
      }
      AfterInstall(luck, w0, w1, release, s);
    }
  }

  lemma StateIs(s: Persistent)
    ensures Index(s.state) == 8 <==> s.state == RebootPending
    ensures Index(s.state) == 0 <==> s.state == Idle
    ensures Index(s.state) == 1 <==> s.state == CheckNetwork
  {
  }

  lemma PendingIs(luck: Option<Luck>, w: World, release: Release, s: Persistent)
    requires Installs(luck, w, release, s) && s.state == RebootPending
    ensures s == Pending(luck.value, w.bootId)
  {
    hide Admit, UuidV4;
  }

  lemma FreshIs(luck: Option<Luck>, w: World, release: Release, s: Persistent)
    requires Installs(luck, w, release, s) && s.state == Idle
    ensures s == FRESH
  {
    hide Offers;
  }

  /** On the way from the health check to IDLE, or there. */
  ghost predicate Confirming(luck: Option<Luck>, before: string, w: World, release: Release, s: Persistent, left: nat, turn: Turn) {
    luck.Some? &&
    (Succeeded(w.log, luck.value.id) || (turn == Again && Confirms(luck, before, w, release, s) && left + Index(s.state) >= 13))
  }

  lemma ConfirmTurn(luck: Option<Luck>, before: string, w0: World, w1: World, release: Release, s: Persistent, t: Persistent, left: nat, turn: Turn)
    requires Inv(w0) && w0.visible == Some(s)
    requires Confirming(luck, before, w0, release, s, left + 1, Again) && Turned(luck, w0, w1, release, s, t, turn)
    ensures Confirming(luck, before, w1, release, t, left, turn)
  {
    hide Inv, Goes, Settled, Offers, Upgraded, Rebooting, Confirms, Planned, Succeeded;
    if Succeeded(w0.log, luck.value.id) {
      SucceededKept(w0, w1, luck.value.id);
    } else {
      LuckIsThere(luck, before, w0, release, s);
      ConfirmsGoes(luck, before, w0, release, s);
      if s.state == ReportSuccess {
        AfterReport(luck, before, w0, w1, release, s);
      } else {
        AfterCheck(luck, before, w0, w1, release, s);
      }
    }
  }

  /**
   run(): at most `turns` rounds, after which the process may stop or be stopped. With luck, nine rounds
   take an update from IDLE to its reboot, and three take it from its health check to the end; one takes
   a candidate that is not well to the reboot out of it.
   */
  method Run(m: StateMachine, release: Release, turns: nat, ghost before: string)
    requires !m.blocked && AtHead(m.device.w, m.current, release)
    modifies m, m.device
    ensures Inv(m.device.w) && Later(old(m.device.w), m.device.w)
    ensures Installs(m.device.luck, old(m.device.w), release, old(m.current)) && turns > 8 ==>
              m.device.luck.Some? && Rebooting(m.device.w, Pending(m.device.luck.value, m.device.w.bootId))
    ensures Confirms(m.device.luck, before, old(m.device.w), release, old(m.current)) && turns >= 3 ==>
              m.device.luck.Some? && Succeeded(m.device.w.log, m.device.luck.value.id)
    ensures Fails(m.device.luck, old(m.device.w), release, old(m.current)) && turns > 0 ==>
              Rebooting(m.device.w, Rolled(old(m.current)))
  {
    hide Inv, Summary, Ready, Follows, Goes, Fails, Planned, Settled, Offers, Upgraded, Rebooting, Succeeded, Installs, Confirms, Later;
    var left, turn := turns, Again;
    ghost var fails := Fails(m.device.luck, m.device.w, release, m.current) && turns > 0;
    ghost var installs := Installs(m.device.luck, m.device.w, release, m.current) && turns > 8;
    ghost var confirms := Confirms(m.device.luck, before, m.device.w, release, m.current) && turns >= 3;
    LuckIsThere(m.device.luck, before, m.device.w, release, m.current);
    LaterSame(m.device.w);
    while left > 0 && turn == Again
      invariant Inv(m.device.w) && Later(old(m.device.w), m.device.w)
      invariant turn == Again ==> !m.blocked && AtHead(m.device.w, m.current, release)
      invariant installs ==> Underway(m.device.luck, m.device.w, release, m.current, left, turn)
      invariant confirms ==> Confirming(m.device.luck, before, m.device.w, release, m.current, left, turn)
      invariant fails ==> if turn == Again then left == turns && m.current == old(m.current) && m.device.w == old(m.device.w)
                          else Rebooting(m.device.w, Rolled(old(m.current)))
    {
      left := left - 1;
      ghost var w0, s := m.device.w, m.current;
      turn := OneTurn(m, release);
      LaterChain(old(m.device.w), w0, m.device.w);
      if installs {
        InstallTurn(m.device.luck, w0, m.device.w, release, s, m.current, left, turn);
      }
      if confirms {
        ConfirmTurn(m.device.luck, before, w0, m.device.w, release, s, m.current, left, turn);
      }
    }
    LuckIsThere(m.device.luck, before, m.device.w, release, m.current);
  }

  lemma LaterSame(w: World)
    ensures Later(w, w)
  {
  }

  lemma LaterChain(w0: World, w1: World, w2: World)
    requires Later(w0, w1) && Later(w1, w2)
    ensures Later(w0, w2)
  {
  }

  lemma PendingBoot(w: World, s: Persistent)
    requires Ready(w, s) && s.state == RebootPending
    ensures s.bootIdBefore == w.bootId
  {
    hide Summary;
  }

  /**
   A rollback whose reboot may not have happened (lines 232-252): ask for it again only while the
   candidate is still the current slot.
   */
  method SettleRollback(m: StateMachine, release: Release) returns (proceed: bool)
    requires !m.blocked && AtHead(m.device.w, m.current, release)
    modifies m, m.device
    ensures Inv(m.device.w) && Later(old(m.device.w), m.device.w)
    ensures proceed ==> !m.blocked && AtHead(m.device.w, m.current, release) && m.current == old(m.current)
    ensures proceed && m.current.state == Rollback && m.current.context == RebootHealthFailure ==>
              SlotSeen(m.device.w.pid, m.current.previousSlot) in m.device.w.log
    ensures old(m.current.state) != Rollback ==> proceed && m.device.w == old(m.device.w)
  {
    hide Inv, Summary, Ready;
    if m.current.state != Rollback || m.current.context != RebootHealthFailure {
      return true;
    }
    ghost var w0 := m.device.w;
    var st, slot := m.device.CurrentSlot();
    if st != Ok || (slot != SlotA && slot != SlotB) {
      return false;
    }
    if slot == m.current.candidateSlot {
      var rebooted := m.Reboot();
      return false;
    }
    if slot != m.current.previousSlot {
      return false;
    }
    HeadEvidenceKept(w0, m.device.w, release);
    ReplaySafeReady(m.device.w, m.current);
    return true;
  }

  /** A device in IDLE, or without a state file, in front of the update. */
  predicate FirstLife(luck: Option<Luck>, w: World) {
    && luck.Some? && Offers(luck.value, w.bootId) && luck.value.id !in w.admitted
    && (w.visible == None || w.visible == Some(FRESH))
  }

  /** The device has come up in the candidate slot after the reboot of the update. */
  predicate SecondLife(luck: Option<Luck>, before: string, w: World) {
    && luck.Some? && Offers(luck.value, before) && Upgraded(luck.value, before, w.bootId)
    && w.visible == Some(Pending(luck.value, before))
  }

  /** ... or in a candidate that is not well. */
  predicate SickLife(luck: Option<Luck>, before: string, w: World) {
    && luck.Some? && Offers(luck.value, before) && Unwell(luck.value, before, w.bootId)
    && w.visible == Some(Pending(luck.value, before))
  }

  /** The start of main(): open the state file, read the release and the boot id. */
  method BootUp(m: StateMachine) returns (ok: bool, release: Release)
    requires Inv(m.device.w)
    modifies m, m.device
    ensures Inv(m.device.w) && Later(old(m.device.w), m.device.w) && m.device.w.admitted == old(m.device.w).admitted
    ensures ok ==> !m.blocked && m.Synced()
    ensures ok ==> ReleaseRead(m.device.w.pid, release) in m.device.w.log && BootSeen(m.device.w.pid, m.device.w.bootId) in m.device.w.log
    ensures ok ==> m.current == if old(m.device.w).visible.Some? then old(m.device.w).visible.value else FRESH
    ensures Knows(m.device.luck, old(m.device.w)) ==> ok && release == m.device.luck.value.boots[m.device.w.bootId].release
  {
    hide Inv, Summary, Ready, Writable, Valid;
    ghost var w0 := m.device.w;
    release := *;
    var st := m.Open();
    OpenKeeps(w0, m.device.w, st);
    if st != Ok {
      return false, release;
    }
    var loaded: bool := *;
    if m.device.luck.Some? && m.device.w.bootId in m.device.luck.value.boots {
      loaded, release := true, m.device.luck.value.boots[m.device.w.bootId].release;
    }
    if !loaded {
      return false, release;
    }
    m.device.Note(ReleaseRead(m.device.w.pid, release));
    ghost var w1 := m.device.w;
    st := m.device.ReadBootId();
    ok := st == Ok;
    Kept(w1.log, m.device.w.log, ReleaseRead(w1.pid, release));
  }

  /**
   main(): boot up, recover, settle a pending rollback, run. An update that nothing stands in the way of
   gets to its reboot in the first life, and is marked good and reported in the second; if the candidate is
   not well, the second ends with the reboot out of it.
   */
  method AgentMain(device: Device, turns: nat, ghost before: string)
    requires Inv(device.w)
    modifies device
    ensures Inv(device.w) && old(device.w.log) <= device.w.log && device.w.bootId == old(device.w.bootId)
    ensures FirstLife(device.luck, old(device.w)) && turns > 8 ==>
              device.luck.Some? && Rebooting(device.w, Pending(device.luck.value, device.w.bootId))
    ensures SecondLife(device.luck, before, old(device.w)) && turns >= 3 ==>
              device.luck.Some? && Succeeded(device.w.log, device.luck.value.id)
    ensures SickLife(device.luck, before, old(device.w)) && turns > 0 ==>
              device.luck.Some? && Rebooting(device.w, Rolled(Checked(device.luck.value, before)))
  {
    hide Inv, Summary, Ready, Writable, Valid, Rebooting, Succeeded, Planned, InFirst, InSecond, InSick, FirstLife, SecondLife, SickLife, Checked;
    ghost var start := device.w;
    device.w := device.w.(pid := device.w.pid + 1);
    NextProcess(start);
    LivesKnow(device.luck, before, start);
    var m := new StateMachine(device);
    var ok, release := BootUp(m);
    if !ok {
      return;
    }
    LivesGo(device.luck, before, start, device.w, m.current);
    Go(m, release, turns, before);
  }

  /** The rest of main(). */
  method Go(m: StateMachine, release: Release, turns: nat, ghost before: string)
    requires !m.blocked && AtHead0(m.device.w, m.current, release)
    requires Knows(m.device.luck, m.device.w) ==> release == m.device.luck.value.boots[m.device.w.bootId].release
    modifies m, m.device
    ensures Inv(m.device.w) && Later(old(m.device.w), m.device.w)
    ensures InFirst(m.device.luck, old(m.device.w), old(m.current)) && turns > 8 ==>
              m.device.luck.Some? && Rebooting(m.device.w, Pending(m.device.luck.value, m.device.w.bootId))
    ensures InSecond(m.device.luck, before, old(m.device.w), old(m.current)) && turns >= 3 ==>
              m.device.luck.Some? && Succeeded(m.device.w.log, m.device.luck.value.id)
    ensures InSick(m.device.luck, before, old(m.device.w), old(m.current)) && turns > 0 ==>
              m.device.luck.Some? && Rebooting(m.device.w, Rolled(Checked(m.device.luck.value, before)))
  {
    hide Inv, Summary, Ready, Valid, Rebooting, Succeeded, Planned, Offers, Arrives, Installs, Confirms, Fails, RecoveredBySlot;
    ghost var w1, s := m.device.w, m.current;
    PendingRecord(m.device.luck, before, w1);
    var st := m.Recover(m.device.w.bootId);
    if st != Ok {
      return;
    }
    HeadEvidenceKept(w1, m.device.w, release);
    var proceed := SettleRollback(m, release);
    if proceed {
      LivesStart(m.device.luck, before, w1, m.device.w, release, s, m.current);
      if InSick(m.device.luck, before, w1, s) {
        SickStart(m.device.luck, before, w1, m.device.w, release, s, m.current);
      }
      Run(m, release, turns, before);
    }
  }

  /** What the lives are in once the device is booted. */
  predicate InFirst(luck: Option<Luck>, w: World, s: Persistent) {
    luck.Some? && Offers(luck.value, w.bootId) && luck.value.id !in w.admitted && s == FRESH
  }

  predicate InSecond(luck: Option<Luck>, before: string, w: World, s: Persistent) {
    luck.Some? && Offers(luck.value, before) && Upgraded(luck.value, before, w.bootId) && s == Pending(luck.value, before)
  }

  predicate InSick(luck: Option<Luck>, before: string, w: World, s: Persistent) {
    luck.Some? && Offers(luck.value, before) && Unwell(luck.value, before, w.bootId) && s == Pending(luck.value, before)
  }

  /** The record during the health check. */
  function Checked(luck: Luck, before: string): Persistent {
    Planned(luck, before, if before in luck.boots then luck.boots[before].slot else SlotUnknown, HealthCheck)
  }

  lemma LivesGo(luck: Option<Luck>, before: string, start: World, w: World, s: Persistent)
    requires w.bootId == start.bootId && w.admitted == start.admitted
    requires s == if start.visible.Some? then start.visible.value else FRESH
    ensures FirstLife(luck, start) ==> InFirst(luck, w, s)
    ensures SecondLife(luck, before, start) ==> InSecond(luck, before, w, s)
    ensures SickLife(luck, before, start) ==> InSick(luck, before, w, s)
  {
    hide Offers, Arrives, Planned;
  }

  lemma LivesKnow(luck: Option<Luck>, before: string, w: World)
    ensures FirstLife(luck, w) ==> Knows(luck, w)
    ensures SecondLife(luck, before, w) || SickLife(luck, before, w) ==> Knows(luck, w)
  {
    hide Planned, Admit, UuidV4, CandidateRelease;
  }

  /** What recover() looks at in the record of a pending reboot. */
  lemma PendingRecord(luck: Option<Luck>, before: string, w: World)
    ensures luck.Some? && Arrives(luck.value, before, w.bootId) ==>
      var s := Pending(luck.value, before);
      && s.state == RebootPending && s.bootIdBefore == before != w.bootId && UuidV4(w.bootId)
      && Knows(luck, w) && luck.value.boots[w.bootId].slot == s.candidateSlot
      && s.(state := HealthCheck) == Planned(luck.value, before, luck.value.boots[before].slot, HealthCheck)
  {
    hide CandidateRelease, UuidV4;
  }

  lemma LivesStart(luck: Option<Luck>, before: string, w0: World, w1: World, release: Release, s: Persistent, t: Persistent)
    requires w1.bootId == w0.bootId && (Knows(luck, w1) ==> release == luck.value.boots[w1.bootId].release)
    ensures InFirst(luck, w0, s) && t == s && w1.admitted == w0.admitted ==> Installs(luck, w1, release, t)
    ensures InSecond(luck, before, w0, s) && t == s.(state := HealthCheck) ==> Confirms(luck, before, w1, release, t)
  {
    hide Admit, UuidV4, CandidateRelease;
  }

  lemma SickStart(luck: Option<Luck>, before: string, w0: World, w1: World, release: Release, s: Persistent, t: Persistent)
    requires w1.bootId == w0.bootId && (Knows(luck, w1) ==> release == luck.value.boots[w1.bootId].release)
    requires InSick(luck, before, w0, s) && t == s.(state := HealthCheck)
    ensures Fails(luck, w1, release, t) && t == Checked(luck.value, before)
  {
    hide Admit, UuidV4, ReleaseValid, Follows;
    RolledFollows(luck.value, before);
  }

  lemma NextProcess(w: World)
    requires Inv(w)
    ensures Inv(w.(pid := w.pid + 1))
  {
  }

  lemma OpenKeeps(w0: World, w1: World, st: Status)
    requires Inv(w0)
    requires w1 == w0 || (w0.visible.None? && SaveOutcome(w0, w1, FRESH, st))
    ensures Inv(w1) && Later(w0, w1)
  {
    hide Inv, Summary, Valid, TextsValid;
    if w1 != w0 {
      SaveKeeps(w0, w1, FRESH, st);
    }
  }

  /**
   Any number of lives of the device, each with its own number of turns, with or without a power
   loss in between: the whole history stays lawful.
   */
  method Live(device: Device, lives: seq<nat>)
    requires Inv(device.w)
    modifies device
    ensures Inv(device.w) && Lawful(device.w.log) && old(device.w.log) <= device.w.log
  {
    for i := 0 to |lives|
      invariant Inv(device.w) && old(device.w.log) <= device.w.log
    {
      AgentMain(device, lives[i], "");
      var powerLost: bool, bootId: string := *, *;
      if powerLost {
        device.PowerCycle(bootId);
      }
    }
  }

  /** From a device without a state file, every reachable history is lawful. */
  method Lifetime(luck: Option<Luck>, lives: seq<nat>) returns (device: Device)
    ensures fresh(device) && Lawful(device.w.log)
  {
    device := new Device(luck);
    Live(device, lives);
  }

  /**
   An update that nothing stands in the way of: from a device without a state file to its install, its
   reboot into the other slot, its mark and its report.
   */
  method CompleteUpdate(luck: Luck, first: string, second: string, turns: nat) returns (device: Device)
    requires Offers(luck, first) && Upgraded(luck, first, second) && turns > 8
    ensures fresh(device) && Lawful(device.w.log)
    ensures Succeeded(device.w.log, luck.id)
    ensures exists pid :: RebootAsked(pid, Pending(luck, first)) in device.w.log
  {
    hide Offers, Upgraded, Planned, Succeeded, Inv, Rebooting;
    device := new Device(Some(luck));
    device.PowerCycle(first);
    NothingPossible(device.w);
    AgentMain(device, turns, "");
    ghost var w1 := device.w;
    RebootingIs(w1, Pending(luck, first));
    device.PowerCycle(second);
    AgentMain(device, turns, first);
    Kept(w1.log, device.w.log, RebootAsked(w1.pid, Pending(luck, first)));
    InvLawful(device.w);
  }

  /** An update whose candidate fails its health check is marked bad, and the device reboots out of it. */
  method FailedUpdate(luck: Luck, first: string, second: string, turns: nat) returns (device: Device)
    requires Offers(luck, first) && Unwell(luck, first, second) && turns > 8
    ensures fresh(device) && Lawful(device.w.log)
    ensures Rebooting(device.w, Rolled(Checked(luck, first)))
    ensures exists pid, s :: MarkedBad(pid, s) in device.w.log && s.attemptId == Rolled(Checked(luck, first)).attemptId
  {
    hide Offers, Unwell, Planned, Inv, Rebooting, Rolled, Checked;
    device := new Device(Some(luck));
    device.PowerCycle(first);
    NothingPossible(device.w);
    AgentMain(device, turns, "");
    RebootingIs(device.w, Pending(luck, first));
    device.PowerCycle(second);
    AgentMain(device, turns, first);
    RolledIsBad(device.w, Checked(luck, first));
    InvLawful(device.w);
  }

  lemma RolledIsBad(w: World, s: Persistent)
    requires Inv(w) && Rebooting(w, Rolled(s))
    ensures exists pid, r :: MarkedBad(pid, r) in w.log && r.attemptId == Rolled(s).attemptId
  {
    hide Inv, Summary;
    VisibleEarned(w, Rolled(s));
    var pid, r := MarkRecorded(w.log, s.attemptId, false);
  }

  lemma NothingPossible(w: World)
    requires Inv(w) && w.log == []
    ensures w.visible == None && w.admitted == map[]
  {
    hide Summary;
  }

  lemma RebootingIs(w: World, s: Persistent)
    requires Rebooting(w, s)
    ensures RebootAsked(w.pid, s) in w.log && w.visible == Some(s) && w.possible == {Some(s)}
  {
  }

  lemma InvLawful(w: World)
    requires Inv(w)
    ensures Lawful(w.log)
  {
    hide Lawful, Summary;
  }

  lemma GoodReadyKept(w0: World, w1: World, s: Persistent)
    requires Ready(w0, s) && s.state == MarkGood && Later(w0, w1) && Summary(w1.log) == Summary(w0.log)
    ensures Ready(w1, s)
  {
    hide Summary;
  }
}
