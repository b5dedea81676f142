/**
 The agent process (state_machine.c, reboot.c, services.c, main.c) running on a device that can
 lose power between any two I/O steps. Nondeterministic choices (`:= *`) stand for what the
 environment decides: whether an I/O step fails, whether the process dies there, and what the
 network, RAUC, the health hook and the slot query answer.
 */
module OtaAgent {
  import opened Wrappers
  import opened OtaModel
  import opened OtaHistory
  import opened OtaPlan

  /** TRUE, FALSE, or the process no longer exists. */
  datatype Status = Ok | Failed | Dead

  /** How ota_atomic_write may leave the state file. */
  ghost predicate SaveOutcome(w0: World, w1: World, next: Persistent, st: Status) {
    var renamed := AfterRename(w0, next);
    match st
    case Ok => Valid(next) && w1 == AfterFsync(renamed, next)
    case Failed => w1 == w0 || (Valid(next) && w1 == renamed)
    case Dead => Valid(next) && (w1 == w0 || w1 == renamed || w1 == AfterFsync(renamed, next))
  }

  /** Whatever a save comes to, the device invariant survives a record that may be written. */
  lemma SaveKeeps(w0: World, w1: World, next: Persistent, st: Status)
    requires Inv(w0) && SaveOutcome(w0, w1, next, st) && (Valid(next) ==> Writable(w0, next))
    ensures Inv(w1) && Later(w0, w1)
    ensures Summary(w1.log).(disk := None) == Summary(w0.log).(disk := None)
    ensures st == Ok ==> Summary(w1.log).disk == Some(Durable(next))
  {
    hide Inv, Valid, Writable, Summary;
    if Valid(next) {
      RenameKeeps(w0, next);
      SyncFollows(w0, next);
      FsyncKeeps(AfterRename(w0, next), next);
    }
    SummarySnoc(w0.log, Renamed(w0.visible, next));
    SummarySnoc(AfterRename(w0, next).log, Durable(next));
  }

  /** Everything a mark needs except the slot query that mark() itself makes. */
  ghost predicate MarkReady(h: seq<Event>, pid: nat, s: Persistent, good: bool) {
    var d := Summary(h);
    && HasAttempt(s) && s.attemptId !in d.goods && s.attemptId !in d.bads && s.attemptId in d.installs
    && d.disk == Some(Durable(s)) && RebootedSince(h, pid, s)
    && (if good then s.state == MarkGood && HealthPassed(pid, s.attemptId) in h &&
                     RunsTarget(h, pid, s) && AdmittedAsUpgrade(h, s)
        else s.state == HealthCheck)
  }

  lemma MarkReadyGrows(h: seq<Event>, g: seq<Event>, pid: nat, s: Persistent, good: bool)
    requires MarkReady(h, pid, s, good) && h <= g && Summary(g) == Summary(h)
    ensures MarkReady(g, pid, s, good)
  {
    hide Summary, CandidateRelease, StrictlyNewer;
  }

  lemma MarkPermitted(h: seq<Event>, pid: nat, s: Persistent, good: bool)
    requires MarkReady(h, pid, s, good) && SlotSeen(pid, s.candidateSlot) in h
    ensures Permitted(h, if good then MarkedGood(pid, s) else MarkedBad(pid, s))
  {
    hide Summary, CandidateRelease, StrictlyNewer;
  }

  lemma MarkKeeps(w: World, s: Persistent, good: bool)
    requires Inv(w) && MarkReady(w.log, w.pid, s, good) && SlotSeen(w.pid, s.candidateSlot) in w.log
    ensures var w1 := Noted(w, if good then MarkedGood(w.pid, s) else MarkedBad(w.pid, s));
            Inv(w1) && Summary(w1.log).installs == Summary(w.log).installs &&
            Summary(w1.log).disk == Summary(w.log).disk &&
            s.attemptId in if good then Summary(w1.log).goods else Summary(w1.log).bads
  {
    hide Lawful, FileOk, AdmissionsOk, Summary, Permitted, RebootedSince, CandidateRelease, StrictlyNewer;
    var e := if good then MarkedGood(w.pid, s) else MarkedBad(w.pid, s);
    MarkPermitted(w.log, w.pid, s, good);
    SummarySnoc(w.log, e);
    EffectKeeps(w, e, s);
  }

  lemma InstallKeeps(w: World, s: Persistent)
    requires Inv(w) && HasAttempt(s) && s.state == Installing && s.attemptId !in Summary(w.log).installs
    requires Summary(w.log).disk == Some(Durable(s))
    ensures Inv(Noted(w, Installed(w.pid, s.attemptId))) && Noted(w, Installed(w.pid, s.attemptId)) != w
  {
    hide Lawful, FileOk, AdmissionsOk, AllEarned, Summary, Survivors;
    EffectKeeps(w, Installed(w.pid, s.attemptId), s);
    assert |Noted(w, Installed(w.pid, s.attemptId)).log| == |w.log| + 1;
  }

  predicate Knows(luck: Option<Luck>, w: World) {
    luck.Some? && w.bootId in luck.value.boots
  }

  /** The state file, the kernel's view of it, and the primitives with effects outside the process. */
  class Device {
    var w: World
    const luck: Option<Luck>

    /** A factory-fresh device: no state file yet. */
    constructor (luck: Option<Luck>)
      ensures Inv(w) && w.visible == None && w.log == [] && this.luck == luck
    {
      w := World(None, {None}, "", 0, map[], []);
      this.luck := luck;
    }

    /** What comes of a step that the environment may let fail. */
    method Try() returns (st: Status)
      ensures luck.Some? ==> st == Ok
    {
      st := *;
      if luck.Some? {
        st := Ok;
      }
    }

    /** ota_persistence_save over ota_atomic_write. */
    method Save(next: Persistent) returns (st: Status)
      modifies this
      ensures SaveOutcome(old(w), w, next, st)
      ensures luck.Some? && Valid(next) ==> st == Ok
    {
      if !Valid(next) {
        return Failed;
      }
      // temporary file: create, write, fsync, close; then rename
      st := Try();
      if st != Ok {
        return;
      }
      w := AfterRename(w, next);
      // fsync of the directory
      st := Try();
      if st != Ok {
        return;
      }
      w := AfterFsync(w, next);
      st := Try();
      st := if st == Ok then Ok else Dead;
    }

    method Note(e: Event)
      requires Inv(w) && Observation(e)
      modifies this
      ensures w == Noted(old(w), e) && Inv(w) && Summary(w.log) == Summary(old(w).log)
    {
      PermittedFree(w.log, e);
      NoteKeeps(w, e);
      w := Noted(w, e);
    }

    /** ota_boot_id_read. */
    method ReadBootId() returns (st: Status)
      requires Inv(w)
      modifies this
      ensures Inv(w) && Summary(w.log) == Summary(old(w).log)
      ensures w == if st == Ok then Noted(old(w), BootSeen(w.pid, w.bootId)) else old(w)
      ensures luck.Some? ==> st == Ok
    {
      st := Try();
      if st == Ok {
        Note(BootSeen(w.pid, w.bootId));
      }
    }

    /** ota_rauc_current_slot: any answer is possible; a successful one is slot A or B. */
    method CurrentSlot() returns (st: Status, slot: Slot)
      requires Inv(w)
      modifies this
      ensures Inv(w) && Summary(w.log) == Summary(old(w).log)
      ensures w == if st == Ok then Noted(old(w), SlotSeen(w.pid, slot)) else old(w)
      ensures Knows(luck, w) ==> st == Ok && slot == luck.value.boots[w.bootId].slot
    {
      st, slot := *, *;
      if luck.Some? && w.bootId in luck.value.boots {
        st, slot := Ok, luck.value.boots[w.bootId].slot;
      }
      if st == Ok {
        Note(SlotSeen(w.pid, slot));
      }
    }

    /** ota_rauc_install. The command may have run even if it reports failure or the process dies. */
    method Install(s: Persistent) returns (st: Status)
      requires Inv(w) && HasAttempt(s) && s.state == Installing && s.attemptId !in Summary(w.log).installs
      requires Summary(w.log).disk == Some(Durable(s))
      modifies this
      ensures Inv(w) && (w == old(w) || w == Noted(old(w), Installed(w.pid, s.attemptId)))
      ensures st == Ok ==> w != old(w)
      ensures luck.Some? ==> st == Ok
    {
      hide Inv, Summary;
      st := Try();
      if st == Ok {
        InstallKeeps(w, s);
        w := Noted(w, Installed(w.pid, s.attemptId));
        st := Try();
      }
    }

    /** mark(): the expected slot is looked up once more, then RAUC is asked to mark it. */
    method Mark(s: Persistent, good: bool) returns (st: Status)
      requires Inv(w) && MarkReady(w.log, w.pid, s, good)
      modifies this
      ensures Inv(w) && Later(old(w), w) && w.visible == old(w).visible && w.possible == old(w).possible
      ensures Summary(w.log).installs == Summary(old(w).log).installs
      ensures Summary(w.log).disk == Summary(old(w).log).disk
      ensures st == Ok ==> SlotSeen(w.pid, s.candidateSlot) in w.log
      ensures st == Ok ==> (if good then MarkedGood(w.pid, s) else MarkedBad(w.pid, s)) in w.log
      ensures st == Ok ==> s.attemptId in if good then Summary(w.log).goods else Summary(w.log).bads
      ensures Knows(luck, w) && luck.value.boots[w.bootId].slot == s.candidateSlot ==> st == Ok
    {
      hide Inv, MarkReady, Summary;
      var slot;
      st, slot := CurrentSlot();
      if st == Ok && slot != s.candidateSlot {
        return Failed;
      }
      if st == Ok {
        var e := if good then MarkedGood(w.pid, s) else MarkedBad(w.pid, s);
        MarkReadyGrows(old(w).log, w.log, w.pid, s, good);
        MarkKeeps(w, s, good);
        w := Noted(w, e);
        st := Try();
      }
    }

    /** ota_health_check: the first thing it checks is that the candidate is the current slot. */
    method HealthCheck(s: Persistent) returns (st: Status, error: OtaError)
      requires Inv(w)
      modifies this
      ensures Inv(w) && Summary(w.log) == Summary(old(w).log)
      ensures Later(old(w), w) && w.visible == old(w).visible && w.possible == old(w).possible
      ensures st == Ok ==> SlotSeen(w.pid, s.candidateSlot) in w.log && HealthPassed(w.pid, s.attemptId) in w.log
      ensures Knows(luck, w) && luck.value.boots[w.bootId].slot == s.candidateSlot ==>
                if luck.value.boots[w.bootId].healthy then st == Ok else st == Failed && error == UNHEALTHY
    {
      hide Inv, Summary;
      error := *;
      var slot;
      st, slot := CurrentSlot();
      if st == Ok && slot != s.candidateSlot {
        st := Failed;
      }
      if st == Ok {
        // writable userdata, executables, keyring, rauc status, health hook
        st := Try();
        if luck.Some? && w.bootId in luck.value.boots && !luck.value.boots[w.bootId].healthy {
          st, error := Failed, UNHEALTHY;
        }
        if st == Ok {
          Note(HealthPassed(w.pid, s.attemptId));
        }
      }
    }

    /** An action without an effect on the device: a download, a verification, a report. */
    method Act(s: Persistent) returns (st: Status)
      requires Inv(w)
      modifies this
      ensures Inv(w) && Summary(w.log) == Summary(old(w).log)
      ensures w == if st == Ok then Noted(old(w), Performed(s.state, s.attemptId)) else old(w)
      ensures luck.Some? ==> st == Ok
    {
      st := Try();
      if st == Ok {
        Note(Performed(s.state, s.attemptId));
      }
    }

    /** ota_uuid_kernel: version-4 text that no attempt had before; the admission is noted with it. */
    method NewAttempt(from: string, version: string, build: string) returns (st: Status, id: string)
      requires Inv(w) && StrictlyNewer(version, from)
      modifies this
      ensures Inv(w) && Summary(w.log) == Summary(old(w).log)
      ensures st == Ok ==> UuidV4(id) && id !in old(w).admitted && w == AfterAdmission(old(w), Admitted(id, from, version, build))
      ensures st != Ok ==> w == old(w)
      ensures luck.Some? && UuidV4(luck.value.id) && luck.value.id !in old(w).admitted ==> st == Ok && id == luck.value.id
    {
      id := *;
      st := Try();
      if luck.Some? {
        id := luck.value.id;
      }
      if st == Ok && (!UuidV4(id) || id in w.admitted) {
        st := Failed;
      }
      if st == Ok {
        var e := Admitted(id, from, version, build);
        AdmissionKeeps(w, e);
        w := AfterAdmission(w, e);
      }
    }

    /** The board loses power or reboots: a new boot, and one of the contents that can survive. */
    method PowerCycle(bootId: string)
      requires Inv(w)
      modifies this
      ensures Inv(w) && w.log == old(w).log && w.visible in old(w).possible && w.possible == {w.visible}
      ensures w == AfterPower(old(w), w.visible, bootId)
    {
      var survivor: File := *;
      if survivor !in w.possible {
        survivor := w.visible;
      }
      PowerKeeps(w, survivor, bootId);
      w := AfterPower(w, survivor, bootId);
    }
  }

  // ---------------------------------------------------------------- state machine

  /** What a running process may rely on about the state it holds, beyond its being on disk. */
  ghost predicate Ready(w: World, s: Persistent) {
    var d := Summary(w.log);
    match s.state
    case Installing =>
      HasAttempt(s) && s.attemptId !in d.installs && d.disk == Some(Durable(s)) && s.bootIdBefore == w.bootId
    case RebootPending => s.bootIdBefore == w.bootId
    case HealthCheck => MarkReady(w.log, w.pid, s, false)
    case MarkGood => HealthyCandidate(w, s)
    case _ => true
  }

  ghost predicate HealthyCandidate(w: World, s: Persistent) {
    var d := Summary(w.log);
    && HasAttempt(s) && s.attemptId !in d.goods && s.attemptId !in d.bads && s.attemptId in d.installs
    && d.disk == Some(Durable(s)) && RebootedSince(w.log, w.pid, s)
    && HealthPassed(w.pid, s.attemptId) in w.log
  }

  /** What run() hands to the state machine as the successor of `s`. */
  ghost predicate Proposal(w: World, s: Persistent, next: Persistent) {
    var d := Summary(w.log);
    && next.state != HealthCheck && next.state != BootNewSlot
    && (s.state == Precheck && next.state == Downloading ==> Performed(Precheck, s.attemptId) in w.log)
    && (next.state == VerifyDownload ==> Performed(Downloading, s.attemptId) in w.log)
    && (next.state == RaucVerify ==> Performed(VerifyDownload, s.attemptId) in w.log)
    && (next.state == Installing ==> Performed(RaucVerify, s.attemptId) in w.log)
    && (next.state == ReportSuccess ==> s.attemptId in d.goods)
    && (next.state == Idle && s.state == ReportSuccess ==> Performed(ReportSuccess, s.attemptId) in w.log)
    && (next.state == Rollback && next.context == RebootHealthFailure ==> s.attemptId in d.bads)
    && (next.state == Installing ==>
          s.state == RaucVerify && next.attemptId == s.attemptId && next.bootIdBefore == w.bootId)
    && (next.state == RebootPending ==>
          next == s.(state := RebootPending) && s.attemptId in d.installs && s.bootIdBefore == w.bootId)
    && (next.state == MarkGood ==>
          next == s.(state := MarkGood) && MarkReady(w.log, w.pid, s, false) &&
          HealthPassed(w.pid, s.attemptId) in w.log)
    && (next.state == Rollback ==>
          next.lastError.code != NoError && next.candidateSlot == s.candidateSlot &&
          SlotSeen(w.pid, s.candidateSlot) in w.log)
    && (HasAttempt(next) && !HasAttempt(s) ==>
          && next.attemptId !in d.installs && next.attemptId !in d.goods && next.attemptId !in d.bads
          && next.attemptId in w.admitted && w.admitted[next.attemptId].Admitted?
          && w.admitted[next.attemptId].version == next.targetVersion
          && w.admitted[next.attemptId].build == next.buildId)
  }

  lemma ProposalWritable(w: World, s: Persistent, next: Persistent)
    requires Inv(w) && w.visible == Some(s) && s.lastError.code == NoError
    requires Proposal(w, s, next) && Follows(s, next)
    ensures Writable(w, next)
  {
    hide Lawful, FileOk, AdmissionsOk, TextsValid, Summary, MarkReady, IdentityKept, TransitionAllowed, Vouched;
    ProposalVouched(w, s, next);
  }

  lemma VisibleEarned(w: World, s: Persistent)
    requires Inv(w) && w.visible == Some(s)
    ensures Earned(w.log, s) && ShapeValid(s)
  {
    hide Lawful, AdmissionsOk, Summary, Earned, ShapeValid, TextsValid;
  }

  lemma VisibleValid(w: World, s: Persistent)
    requires Inv(w) && w.visible == Some(s)
    ensures Valid(s)
  {
    hide Lawful, AdmissionsOk, Summary, Earned, Valid;
  }

  /** The attempt of a record is that of its successor. */
  lemma AttemptKept(s: Persistent, next: Persistent)
    requires ShapeValid(s) && Follows(s, next) && next.state != Idle && Index(next.state) > 3
    ensures next.attemptId == s.attemptId || s.state in {Idle, CheckNetwork, CheckUpdate}
  {
    hide TextsValid;
  }

  /** What the record said so far, and the action just done, vouch for the next record. */
  lemma ProposalVouched(w: World, s: Persistent, next: Persistent)
    requires Inv(w) && w.visible == Some(s) && Proposal(w, s, next) && Follows(s, next)
    ensures Vouched(w.log, Some(s), next)
  {
    hide Inv, Summary, MarkReady, Valid, IdentityKept, ShapeValid;
    VisibleEarned(w, s);
    if next.state != Idle && Index(next.state) > 3 {
      AttemptKept(s, next);
    }
  }

  /** The failure record run() and recover() fall back to. */
  function Failure(s: Persistent, error: OtaError): Persistent {
    s.(state := Error, lastError := error)
  }

  lemma FailureProposal(w: World, s: Persistent, error: OtaError)
    ensures Proposal(w, s, Failure(s, error))
  {
    hide Summary;
  }

  /** A record on disk tells how far its attempt has come. */
  lemma RecordTells(w: World, s: Persistent)
    requires Inv(w) && w.visible == Some(s)
    ensures ShapeValid(s) && (s.state == Rollback ==> s.lastError.code != NoError)
    ensures var d := Summary(w.log);
            && (s.attemptId in d.installs ==> Index(s.state) >= 7)
            && (s.attemptId in d.bads ==> Index(s.state) >= 10)
            && (s.attemptId in d.goods ==> Index(s.state) >= 11)
            && (8 <= Index(s.state) <= 13 ==> s.attemptId in d.installs)
            && (HasAttempt(s) ==> AdmittedAsUpgrade(w.log, s))
  {
    hide Lawful, Summary, ShapeValid, StrictlyNewer;
    assert FileOk(w.visible, w.admitted, Summary(w.log));
  }

  /** After a durable transition the process may rely on the new state. */
  lemma ProposalReady(w0: World, w1: World, s: Persistent, next: Persistent)
    requires Inv(w0) && w0.visible == Some(s) && Proposal(w0, s, next) && Follows(s, next)
    requires SaveOutcome(w0, w1, next, Ok) && s.lastError.code == NoError
    ensures Ready(w1, next)
  {
    hide Inv, Summary, Writable, TextsValid, StrictlyNewer, IdentityKept;
    ProposalWritable(w0, s, next);
    SaveKeeps(w0, w1, next, Ok);
    RecordTells(w0, s);
  }

  /** A candidate booted after the install: recover() may let it be checked and marked. */
  lemma RecoveredReady(w0: World, w1: World, s: Persistent, next: Persistent)
    requires Inv(w0) && w0.visible == Some(s) && s.state == BootNewSlot
    requires next == s.(state := HealthCheck, lastError := next.lastError)
    requires Writable(w0, next) && SaveOutcome(w0, w1, next, Ok)
    requires BootSeen(w0.pid, w0.bootId) in w0.log && w0.bootId != s.bootIdBefore
    ensures Ready(w1, next)
  {
    hide Inv, Summary, Writable, TextsValid, StrictlyNewer;
    SaveKeeps(w0, w1, next, Ok);
    RecordTells(w0, s);
  }

  lemma RecoveryWritable(w: World, s: Persistent, next: Persistent)
    requires Inv(w) && w.visible == Some(s) && s.lastError.code == NoError && Follows(s, next)
    requires next == s.(state := next.state, lastError := next.lastError) && Resumed(next.state)
    requires next.state == Rollback ==> next.lastError.code != NoError
    ensures Writable(w, next)
  {
    hide Lawful, FileOk, AdmissionsOk, TextsValid, Summary, Vouched;
    RecoveryVouched(w, s, next);
  }

  lemma RecoveryVouched(w: World, s: Persistent, next: Persistent)
    requires Inv(w) && w.visible == Some(s) && Follows(s, next)
    requires next == s.(state := next.state, lastError := next.lastError) && Resumed(next.state)
    ensures Vouched(w.log, Some(s), next)
  {
    hide Inv, Summary, TextsValid, IdentityKept;
    VisibleEarned(w, s);
  }

  /** Where recover() takes a record. */
  predicate Resumed(s: State) {
    s == BootNewSlot || s == HealthCheck || s == Rollback || s == Error
  }

  /** States whose work resumes from the durable phase. */
  predicate ReplaySafe(s: State) {
    s in {Idle, Error, Rollback, CheckNetwork, CheckUpdate, Precheck, Downloading, VerifyDownload,
          RaucVerify, ReportSuccess}
  }

  lemma ReplaySafeReady(w: World, s: Persistent)
    requires ReplaySafe(s.state)
    ensures Ready(w, s)
  {
    hide Summary;
  }

  lemma PendingReady(w: World, s: Persistent)
    requires s.state == RebootPending && s.bootIdBefore == w.bootId
    ensures Ready(w, s)
  {
    hide Summary;
  }

  /**
   After a changed boot the record goes on to HEALTH_CHECK only if the candidate slot was seen as
   current, to ROLLBACK only if the previous one was, and otherwise to ERROR; the attempt is kept.
   */
  ghost predicate RecoveredBySlot(w: World, was: Persistent, now: Persistent) {
    && now == was.(state := now.state, lastError := now.lastError)
    && match now.state
       case HealthCheck => SlotSeen(w.pid, was.candidateSlot) in w.log
       case Rollback => SlotSeen(w.pid, was.previousSlot) in w.log && now.lastError.code == HealthFailed
       case Error => true
       case _ => false
  }

  lemma Kept(h: seq<Event>, g: seq<Event>, e: Event)
    requires e in h && h <= g
    ensures e in g
  {
  }

  /** OtaStateMachine: the record a process holds in memory, and whether it may still move it. */
  class StateMachine {
    const device: Device
    var current: Persistent
    var blocked: bool

    /** While not blocked, memory is what the file says. */
    ghost predicate Synced()
      reads this, device
    {
      !blocked ==> device.w.visible == Some(current)
    }

    constructor (device: Device)
      ensures this.device == device && blocked
    {
      this.device := device;
      current := FRESH;
      blocked := true;
    }

    /** ota_state_machine_open. A missing file means a first boot; any other read failure stops. */
    method Open() returns (st: Status)
      modifies this, device
      ensures st == Ok ==> !blocked && Synced()
      ensures st == Ok && old(device.w.visible).Some? ==> device.w == old(device.w)
      ensures old(device.w.visible).Some? ==> device.w == old(device.w)
      ensures old(device.w.visible).None? ==> device.w == old(device.w) || SaveOutcome(old(device.w), device.w, FRESH, st)
      ensures st == Ok && old(device.w.visible).None? ==> SaveOutcome(old(device.w), device.w, FRESH, Ok) && current == FRESH
      ensures device.luck.Some? ==> st == Ok
    {
      blocked := true;
      FreshValid();
      st := device.Try();
      if st != Ok {
        return;
      }
      if device.w.visible.Some? {
        current := device.w.visible.value;
      } else {
        current := FRESH;
        st := device.Save(current);
        if st != Ok {
          return;
        }
      }
      blocked := false;
    }

    /** ota_state_machine_transition: memory moves only after durability; an uncertain save blocks. */
    method Transition(next: Persistent) returns (st: Status)
      modifies this, device
      ensures st == Ok ==>
                !old(blocked) && Follows(old(current), next) && current == next && !blocked &&
                SaveOutcome(old(device.w), device.w, next, Ok)
      ensures st == Failed && (old(blocked) || !Follows(old(current), next)) ==>
                current == old(current) && blocked == old(blocked) && device.w == old(device.w)
      ensures st == Failed && !old(blocked) && Follows(old(current), next) ==>
                current == old(current) && blocked && SaveOutcome(old(device.w), device.w, next, Failed)
      ensures st == Dead ==> Follows(old(current), next) && SaveOutcome(old(device.w), device.w, next, Dead)
      ensures old(Synced()) && st != Dead ==> Synced()
      ensures device.luck.Some? && !old(blocked) && Follows(old(current), next) ==> st == Ok
    {
      if blocked {
        return Failed;
      }
      if !TransitionAllowed(current.state, next.state) {
        return Failed;
      }
      if !Valid(next) {
        return Failed;
      }
      if !IdentityKept(current, next) {
        return Failed;
      }
      st := device.Save(next);
      if st == Failed {
        blocked := true;
      }
      if st == Ok {
        current := next;
      }
    }

    /** ota_state_machine_fail, as recover() and run() use it. */
    method Fail(error: OtaError) returns (st: Status)
      requires Inv(device.w) && Synced() && !blocked && current.lastError.code == NoError
      modifies this, device
      ensures Inv(device.w) && Later(old(device.w), device.w)
      ensures st == Ok ==> !blocked && Synced() && current == Failure(old(current), error) && Ready(device.w, current)
      ensures st == Ok ==> Follows(old(current), current)
    {
      hide Inv, Summary, Proposal, Writable, Follows, Valid, Ready;
      var w0, s := device.w, current;
      var next := Failure(current, error);
      FailureProposal(w0, s, error);
      st := Transition(next);
      MoveKeeps(w0, device.w, s, next, st);
      if st == Ok {
        ProposalReady(w0, device.w, s, next);
      }
    }

    /** recover()'s moves: the record on disk with only its state and error changed. */
    method Resume(next: Persistent) returns (st: Status)
      requires Inv(device.w) && Synced() && !blocked && current.lastError.code == NoError
      requires next == current.(state := next.state, lastError := next.lastError)
      requires Resumed(next.state) && (next.state == Rollback ==> next.lastError.code != NoError)
      modifies this, device
      ensures Inv(device.w) && Later(old(device.w), device.w)
      ensures st == Ok ==> !blocked && Synced() && current == next
      ensures st == Ok && ReplaySafe(next.state) ==> Ready(device.w, next)
      ensures (st == Ok && next.state == HealthCheck && old(current.state) == BootNewSlot &&
               BootSeen(device.w.pid, device.w.bootId) in old(device.w).log &&
               device.w.bootId != next.bootIdBefore) ==> Ready(device.w, next)
      ensures device.luck.Some? && Follows(old(current), next) ==> st == Ok
    {
      hide Inv, Summary, Writable, Follows, Valid, Ready;
      var w0, s := device.w, current;
      st := Transition(next);
      if Follows(s, next) {
        RecoveryWritable(w0, s, next);
        if device.w != w0 {
          SaveKeeps(w0, device.w, next, st);
        }
        if st == Ok && ReplaySafe(next.state) {
          ReplaySafeReady(device.w, next);
        } else if st == Ok && next.state == HealthCheck && s.state == BootNewSlot &&
                  BootSeen(w0.pid, w0.bootId) in w0.log && w0.bootId != s.bootIdBefore {
          RecoveredReady(w0, device.w, s, next);
        }
      }
    }

    /** The last part of recover(): a changed boot is judged by the slot it came up in. */
    method EnterSlot() returns (st: Status)
      requires Inv(device.w) && Synced() && !blocked && current.state == BootNewSlot
      requires current.lastError.code == NoError && current.bootIdBefore != device.w.bootId
      requires BootSeen(device.w.pid, device.w.bootId) in device.w.log
      modifies this, device
      ensures Inv(device.w) && Later(old(device.w), device.w)
      ensures st == Ok ==> !blocked && Synced() && Ready(device.w, current)
      ensures st == Ok ==> RecoveredBySlot(device.w, old(current), current)
      ensures Knows(device.luck, device.w) && device.luck.value.boots[device.w.bootId].slot == old(current.candidateSlot) ==>
                st == Ok && current == old(current).(state := HealthCheck)
    {
      hide Inv, Summary, Writable, Follows, Valid, Ready;
      var message: string := *;
      var slot;
      CandidateNamed(device.w, current);
      st, slot := device.CurrentSlot();
      if st == Dead {
        return;
      }
      if st == Failed || (slot != SlotA && slot != SlotB) {
        st := Fail(OtaError(RebootContextInvalid, message));
        return;
      }
      st := GoBySlot(slot, message);
    }

    /** ... once that slot is known. */
    method GoBySlot(slot: Slot, message: string) returns (st: Status)
      requires Inv(device.w) && Synced() && !blocked && current.state == BootNewSlot
      requires current.lastError.code == NoError && current.bootIdBefore != device.w.bootId
      requires BootSeen(device.w.pid, device.w.bootId) in device.w.log && SlotSeen(device.w.pid, slot) in device.w.log
      modifies this, device
      ensures Inv(device.w) && Later(old(device.w), device.w)
      ensures st == Ok ==> !blocked && Synced() && Ready(device.w, current)
      ensures st == Ok ==> current == old(current).(state := current.state, lastError := current.lastError)
      ensures st == Ok ==> current.state == (if slot == old(current.candidateSlot) then HealthCheck
                                             else if slot == old(current.previousSlot) then Rollback else Error)
      ensures st == Ok ==> RecoveredBySlot(device.w, old(current), current)
      ensures st == Ok && slot == old(current.candidateSlot) ==> current == old(current).(state := HealthCheck)
      ensures device.luck.Some? && slot == old(current.candidateSlot) ==> st == Ok
    {
      hide Inv, Summary, Writable, Follows, Valid, Ready;
      CandidateNamed(device.w, current);
      var next := current;
      if slot == next.candidateSlot {
        next := next.(state := HealthCheck);
      } else if slot == next.previousSlot {
        next := next.(state := Rollback, lastError := OtaError(HealthFailed, message));
      } else {
        st := Fail(OtaError(RebootContextInvalid, message));
        return;
      }
      ghost var seen := device.w.log;
      st := Resume(next);
      Kept(seen, device.w.log, SlotSeen(device.w.pid, slot));
    }

    /**
     ota_state_machine_recover: decides from the durable state, the boot identity and the slot what
     a new process may go on with. Interrupted effects are never replayed.
     */
    method Recover(bootNow: string) returns (st: Status)
      requires Inv(device.w) && Synced()
      requires bootNow == device.w.bootId && BootSeen(device.w.pid, bootNow) in device.w.log
      modifies this, device
      ensures Inv(device.w) && Later(old(device.w), device.w)
      ensures old(blocked) ==> st == Failed && device.w == old(device.w)
      ensures st == Ok ==> !blocked && Synced() && Ready(device.w, current)
      ensures !old(blocked) && ReplaySafe(old(current.state)) ==>
                st == Ok && current == old(current) && device.w == old(device.w)
      ensures st == Ok && old(current.state) in {Installing, HealthCheck, MarkGood} ==>
                current.state == Error && SameAttempt(current, old(current))
      ensures st == Ok && old(current.state) == RebootPending && bootNow == old(current.bootIdBefore) && UuidV4(bootNow) ==>
                current == old(current)
      ensures st == Ok && old(current.state) == RebootPending && bootNow != old(current.bootIdBefore) ==>
                RecoveredBySlot(device.w, old(current), current)
      ensures st == Ok && old(current.state) == BootNewSlot ==> RecoveredBySlot(device.w, old(current), current)
      ensures Knows(device.luck, device.w) && !old(blocked) && old(current.state) == RebootPending && UuidV4(bootNow) &&
              bootNow != old(current.bootIdBefore) &&
              device.luck.value.boots[device.w.bootId].slot == old(current.candidateSlot) ==>
                st == Ok && current == old(current).(state := HealthCheck)
    {
      hide Inv, Summary, Writable, Follows, Valid, Ready, UuidV4, AdmittedAsUpgrade;
      if blocked {
        return Failed;
      }
      RecordTells(device.w, current);
      var state := current.state;
      if ReplaySafe(state) {
        ReplaySafeReady(device.w, current);
        return Ok;
      }
      var message: string := *;
      if state != RebootPending && state != BootNewSlot {
        var code := match state
          case Installing => RaucInstallFailed
          case MarkGood => RaucMarkGoodFailed
          case HealthCheck => HealthFailed
          case _ => RebootContextInvalid;
        st := Fail(OtaError(code, message));
        return;
      }
      if !UuidV4(bootNow) {
        st := Fail(OtaError(RebootContextInvalid, message));
        return;
      }
      if bootNow == current.bootIdBefore {
        if state == RebootPending {
          PendingReady(device.w, current);
          return Ok;
        }
        st := Fail(OtaError(RebootContextInvalid, message));
        return;
      }
      if state == RebootPending {
        BootFollows(device.w, current);
        st := Resume(current.(state := BootNewSlot));
        if st != Ok {
          return;
        }
      }
      st := EnterSlot();
    }

    /**
     ota_state_machine_reboot over ota_reboot_controlled: the record that authorises the reboot is
     written again before the request.
     */
    method Reboot() returns (st: Status)
      requires Inv(device.w) && Synced()
      requires !blocked && current.state == RebootPending ==>
                 BootSeen(device.w.pid, current.bootIdBefore) in device.w.log
      requires !blocked && current.state == Rollback && current.context == RebootHealthFailure ==>
                 SlotSeen(device.w.pid, current.candidateSlot) in device.w.log
      modifies this, device
      ensures Inv(device.w) && Later(old(device.w), device.w)
      ensures old(blocked) ==> st == Failed && device.w == old(device.w)
      ensures !old(blocked) && old(current.state) != RebootPending &&
              !(old(current.state) == Rollback && old(current.context) == RebootHealthFailure) ==>
                st == Failed && device.w == old(device.w)
      ensures st == Ok ==> RebootAsked(device.w.pid, old(current)) in device.w.log
      ensures device.luck.Some? && !old(blocked) && (old(current.state) == RebootPending ||
              (old(current.state) == Rollback && old(current.context) == RebootHealthFailure)) ==>
                st == Ok && current == old(current) && device.w.visible == Some(current) && device.w.possible == {Some(current)}
    {
      hide Inv, Summary, Writable, Follows, Valid, Ready, Permitted;
      if blocked {
        return Failed;
      }
      RecordTells(device.w, current);
      if current.state != RebootPending && !(current.state == Rollback && current.context == RebootHealthFailure) {
        return Failed;
      }
      var w0 := device.w;
      SameRecordWritable(w0, current);
      VisibleValid(w0, current);
      st := device.Save(current);
      SaveKeeps(w0, device.w, current, st);
      if st == Failed {
        blocked := true;
      }
      if st != Ok {
        return;
      }
      AuthorityKept(w0, device.w, current);
      st := RequestReboot();
    }

    /** The request itself, right after its record became durable. */
    method RequestReboot() returns (st: Status)
      requires Inv(device.w) && Synced() && !blocked && Summary(device.w.log).disk == Some(Durable(current))
      requires device.w.log != [] && device.w.log[|device.w.log| - 1] == Durable(current)
      requires (current.state == RebootPending && BootSeen(device.w.pid, current.bootIdBefore) in device.w.log) ||
               (current.state == Rollback && current.context == RebootHealthFailure &&
                SlotSeen(device.w.pid, current.candidateSlot) in device.w.log)
      modifies this, device
      ensures Inv(device.w) && Later(old(device.w), device.w)
      ensures RebootAsked(device.w.pid, old(current)) in device.w.log
      ensures device.luck.Some? ==> st == Ok && current == old(current) && SameDisk(old(device.w), device.w)
    {
      hide Inv, Summary, Writable, Follows, Valid, Ready, Permitted;
      var e := RebootAsked(device.w.pid, current);
      RebootPermitted(device.w, current);
      NoteKeeps(device.w, e);
      device.w := Noted(device.w, e);
      ghost var asked := device.w.log;
      assert e in asked;
      st := device.Try();
      if st == Failed && current.lastError.code == NoError {
        var message: string := *;
        st := Fail(OtaError(RebootFailed, message));
        if st == Ok {
          st := Failed;
        }
        Kept(asked, device.w.log, e);
      }
    }
  }

  ghost predicate SameDisk(w0: World, w1: World) {
    w1.visible == w0.visible && w1.possible == w0.possible
  }

  /** What authorises a reboot is still in the log after its record is saved again. */
  lemma AuthorityKept(w0: World, w1: World, s: Persistent)
    requires Later(w0, w1)
    ensures BootSeen(w0.pid, s.bootIdBefore) in w0.log ==> BootSeen(w1.pid, s.bootIdBefore) in w1.log
    ensures SlotSeen(w0.pid, s.candidateSlot) in w0.log ==> SlotSeen(w1.pid, s.candidateSlot) in w1.log
  {
  }

  lemma FreshValid()
    ensures Valid(FRESH)
  {
  }

  /** A record past the install names two slots, and may go from the boot to its check. */
  lemma CandidateNamed(w: World, s: Persistent)
    requires Inv(w) && w.visible == Some(s) && s.state == BootNewSlot
    ensures Follows(s, s.(state := HealthCheck)) && s.candidateSlot != SlotUnknown
  {
    hide Inv, TextsValid, UuidV4;
    VisibleValid(w, s);
    TextsOfState(s, HealthCheck);
    TextsOfState(s, BootNewSlot);
  }

  lemma BootFollows(w: World, s: Persistent)
    requires Inv(w) && w.visible == Some(s) && s.state == RebootPending
    ensures Follows(s, s.(state := BootNewSlot))
  {
    hide Inv, TextsValid, UuidV4;
    VisibleValid(w, s);
    TextsOfState(s, HealthCheck);
    TextsOfState(s, BootNewSlot);
  }

  lemma SameRecordWritable(w: World, s: Persistent)
    requires Inv(w) && w.visible == Some(s)
    ensures Writable(w, s)
  {
    hide Summary, Lawful, AdmissionsOk, Earned;
    assert FileOk(w.visible, w.admitted, Summary(w.log));
    assert Earned(w.log, s);
  }

  lemma RebootPermitted(w: World, s: Persistent)
    requires Summary(w.log).disk == Some(Durable(s)) && w.log != [] && w.log[|w.log| - 1] == Durable(s)
    requires (s.state == RebootPending && BootSeen(w.pid, s.bootIdBefore) in w.log) ||
             (s.state == Rollback && s.context == RebootHealthFailure && SlotSeen(w.pid, s.candidateSlot) in w.log)
    ensures Permitted(w.log, RebootAsked(w.pid, s))
  {
  }

  /** Any outcome of a transition to a proposed record keeps the device invariant. */
  lemma MoveKeeps(w0: World, w1: World, s: Persistent, next: Persistent, st: Status)
    requires Inv(w0) && w0.visible == Some(s) && s.lastError.code == NoError && Proposal(w0, s, next)
    requires w1 == w0 || (Follows(s, next) && SaveOutcome(w0, w1, next, st))
    ensures Inv(w1) && Later(w0, w1)
  {
    hide Inv, Summary, Proposal, Valid, Writable;
    if w1 != w0 {
      ProposalWritable(w0, s, next);
      SaveKeeps(w0, w1, next, st);
    }
  }
}
