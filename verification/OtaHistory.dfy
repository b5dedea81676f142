/**
 What the agent may do, stated over the history of the device: every step that can be seen
 from outside a process (renames and fsyncs of the state file, installs, slot marks, reboot
 requests, and the observations they rest on) is one event, and `Permitted` says which event
 may follow which history. The world keeps the file as the running kernel sees it and the set
 of contents that a power loss could leave behind.
 */
module OtaHistory {
  import opened Wrappers
  import opened OtaModel

  type File = Option<Persistent>

  datatype Event =
    | Renamed(before: File, record: Persistent)
    | Durable(record: Persistent)
    | ReleaseRead(pid: nat, release: Release)
    | BootSeen(pid: nat, bootId: string)
    | SlotSeen(pid: nat, slot: Slot)
    | HealthPassed(pid: nat, attempt: string)
    | Performed(phase: State, attempt: string)   // the action of that state succeeded
    | Admitted(attempt: string, from: string, version: string, build: string)
    | Installed(pid: nat, attempt: string)
    | MarkedGood(pid: nat, record: Persistent)
    | MarkedBad(pid: nat, record: Persistent)
    | RebootAsked(pid: nat, record: Persistent)

  /** What the permissions need to remember of a history. `disk` is its last rename or fsync. */
  datatype Digest = Digest(installs: set<string>, goods: set<string>, bads: set<string>, disk: Option<Event>)

  function Extend(d: Digest, e: Event): Digest {
    match e
    case Renamed(_, _) => d.(disk := Some(e))
    case Durable(_) => d.(disk := Some(e))
    case Installed(_, a) => d.(installs := d.installs + {a})
    case MarkedGood(_, s) => d.(goods := d.goods + {s.attemptId})
    case MarkedBad(_, s) => d.(bads := d.bads + {s.attemptId})
    case _ => d
  }

  function Summary(h: seq<Event>): Digest {
    if h == [] then Digest({}, {}, {}, None) else Extend(Summary(h[..|h| - 1]), h[|h| - 1])
  }

  lemma SummarySnoc(h: seq<Event>, e: Event)
    ensures Summary(h + [e]) == Extend(Summary(h), e)
  {
    assert (h + [e])[..|h|] == h;
  }

  /** The contents the state file may have after `e`, if it may have had these before. */
  function Surviving(files: set<File>, e: Event): set<File> {
    if e.Renamed? then files + {Some(e.record)} else if e.Durable? then {Some(e.record)} else files
  }

  /** The last record synced, or none at first, and every one renamed into place since. */
  function Survivors(h: seq<Event>): set<File> {
    if h == [] then {None} else Surviving(Survivors(h[..|h| - 1]), h[|h| - 1])
  }

  lemma SurvivorsSnoc(h: seq<Event>, e: Event)
    ensures Survivors(h + [e]) == Surviving(Survivors(h), e)
  {
    assert (h + [e])[..|h|] == h;
  }

  /** The record may be written over `before`: a legal successor, or the same record again. */
  predicate Replaces(before: File, next: Persistent) {
    match before
    case None => next == FRESH
    case Some(s) => next == s || (Follows(s, next) && s.lastError.code == NoError)
  }

  /** The same process saw another boot than the one the install was made from. */
  ghost predicate RebootedSince(h: seq<Event>, pid: nat, s: Persistent) {
    exists b :: BootSeen(pid, b) in h && b != s.bootIdBefore
  }

  /** The attempt was admitted for this version and build, as an upgrade of the release then running. */
  ghost predicate AdmittedAsUpgrade(h: seq<Event>, s: Persistent) {
    exists from :: Admitted(s.attemptId, from, s.targetVersion, s.buildId) in h && StrictlyNewer(s.targetVersion, from)
  }

  ghost predicate RunsTarget(h: seq<Event>, pid: nat, s: Persistent) {
    exists r :: ReleaseRead(pid, r) in h && CandidateRelease(r, s)
  }

  /** What has to have happened for an attempt before its record may say so. */
  ghost predicate Earned(h: seq<Event>, s: Persistent) {
    var d, a, i := Summary(h), s.attemptId, Index(s.state);
    s.state != Error ==>
      && (i > Index(Precheck) ==> Performed(Precheck, a) in h)
      && (i > Index(Downloading) ==> Performed(Downloading, a) in h)
      && (i > Index(VerifyDownload) ==> Performed(VerifyDownload, a) in h)
      && (i > Index(RaucVerify) ==> Performed(RaucVerify, a) in h)
      && (i > Index(Installing) ==> a in d.installs)
      && (s.state == MarkGood || s.state == ReportSuccess ==> exists pid :: HealthPassed(pid, a) in h)
      && (s.state == ReportSuccess ==> a in d.goods)
      && (s.state == Rollback && s.context == RebootHealthFailure ==> a in d.bads)
  }

  /** A record that has been earned, and a success that has been reported before it is forgotten. */
  ghost predicate Vouched(h: seq<Event>, before: File, next: Persistent) {
    && Earned(h, next)
    && (before.Some? && before.value.state == ReportSuccess && next.state == Idle ==>
          Performed(ReportSuccess, before.value.attemptId) in h)
  }

  ghost predicate Permitted(h: seq<Event>, e: Event) {
    var d := Summary(h);
    match e
    case Renamed(before, next) =>
      // over one of the contents the file may have
      before in Survivors(h) && Replaces(before, next) && Vouched(h, before, next)
    case Durable(r) =>
      // the directory sync that follows a rename
      d.disk.Some? && d.disk.value.Renamed? && d.disk.value.record == r
    case Installed(_, a) =>
      // at most once, and only with INSTALLING for this attempt durable
      && a !in d.installs
      && d.disk.Some? && d.disk.value.Durable? && d.disk.value.record.state == Installing
      && d.disk.value.record.attemptId == a
    case MarkedGood(pid, s) =>
      && s.attemptId !in d.goods && s.attemptId !in d.bads && s.attemptId in d.installs
      && d.disk == Some(Durable(s)) && s.state == MarkGood
      && RebootedSince(h, pid, s) && SlotSeen(pid, s.candidateSlot) in h
      && HealthPassed(pid, s.attemptId) in h && RunsTarget(h, pid, s) && AdmittedAsUpgrade(h, s)
    case MarkedBad(pid, s) =>
      && s.attemptId !in d.goods && s.attemptId !in d.bads && s.attemptId in d.installs
      && d.disk == Some(Durable(s)) && s.state == HealthCheck
      && RebootedSince(h, pid, s) && SlotSeen(pid, s.candidateSlot) in h
    case RebootAsked(pid, s) =>
      // the authorising state was made durable again by the very step before
      && d.disk == Some(Durable(s)) && h != [] && h[|h| - 1] == Durable(s)
      && ((s.state == RebootPending && BootSeen(pid, s.bootIdBefore) in h) ||
          (s.state == Rollback && s.context == RebootHealthFailure && SlotSeen(pid, s.candidateSlot) in h))
    case _ => true
  }

  /** A history in which every event was permitted by what came before it. */
  ghost predicate Lawful(h: seq<Event>) {
    forall i :: 0 <= i < |h| ==> Permitted(h[..i], h[i])
  }

  lemma LawfulSnoc(h: seq<Event>, e: Event)
    requires Lawful(h) && Permitted(h, e)
    ensures Lawful(h + [e])
  {
    hide Permitted;
    forall i | 0 <= i < |h + [e]| ensures Permitted((h + [e])[..i], (h + [e])[i]) {
      assert (h + [e])[..i] == if i < |h| then h[..i] else h;
    }
  }

  // ---------------------------------------------------------------- consequences

  lemma {:induction false} SummaryCounts(h: seq<Event>, i: nat)
    requires i < |h|
    ensures h[i].Installed? ==> h[i].attempt in Summary(h).installs
    ensures h[i].MarkedGood? ==> h[i].record.attemptId in Summary(h).goods
    ensures h[i].MarkedBad? ==> h[i].record.attemptId in Summary(h).bads
  {
    if i < |h| - 1 {
      SummaryCounts(h[..|h| - 1], i);
    }
  }

  /** Over any lawful history an attempt is installed once, marked once, and never both ways. */
  lemma AtMostOnce(h: seq<Event>, i: nat, j: nat)
    requires Lawful(h) && i < j < |h|
    ensures h[i].Installed? && h[j].Installed? ==> h[i].attempt != h[j].attempt
    ensures (h[i].MarkedGood? || h[i].MarkedBad?) && (h[j].MarkedGood? || h[j].MarkedBad?)
            ==> h[i].record.attemptId != h[j].record.attemptId
  {
    assert Permitted(h[..j], h[j]);
    SummaryCounts(h[..j], i);
  }

  lemma {:induction false} DiskComesLast(h: seq<Event>)
    ensures var d := Summary(h).disk;
            match d
            case None => forall i :: 0 <= i < |h| ==> !h[i].Renamed? && !h[i].Durable?
            case Some(e) => exists i :: 0 <= i < |h| && h[i] == e && (e.Renamed? || e.Durable?) &&
                                        forall j :: i < j < |h| ==> !h[j].Renamed? && !h[j].Durable?
  {
    if h != [] {
      var g, e := h[..|h| - 1], h[|h| - 1];
      DiskComesLast(g);
      if !e.Renamed? && !e.Durable? && Summary(g).disk.Some? {
        var i :| 0 <= i < |g| && g[i] == Summary(g).disk.value &&
                 forall j :: i < j < |g| ==> !g[j].Renamed? && !g[j].Durable?;
        assert h[i] == Summary(h).disk.value;
        forall j | i < j < |h| ensures !h[j].Renamed? && !h[j].Durable? {
          assert j < |g| ==> g[j] == h[j];
        }
      }
    }
  }

  /** Event `e` happened before position `k`. */
  ghost predicate Before(h: seq<Event>, k: nat, e: Event)
    requires k <= |h|
  {
    exists i :: 0 <= i < k && h[i] == e
  }

  lemma Recall(h: seq<Event>, k: nat, e: Event)
    requires k <= |h| && e in h[..k]
    ensures Before(h, k, e)
  {
    var i :| 0 <= i < k && h[..k][i] == e;
    assert h[i] == e;
  }

  /**
   When a slot is marked good, the same process has before that seen a boot other than the one
   the install was made in, passed the health check, read the candidate slot as current and read
   the attempt's own version and build as the running release; the attempt's version is strictly
   newer than the release it was admitted from; and its install came first.
   */
  lemma MarkGoodIsEarned(h: seq<Event>, k: nat)
    requires Lawful(h) && k < |h| && h[k].MarkedGood?
    ensures var pid, s := h[k].pid, h[k].record;
            && (exists b :: Before(h, k, BootSeen(pid, b)) && b != s.bootIdBefore)
            && Before(h, k, HealthPassed(pid, s.attemptId))
            && Before(h, k, SlotSeen(pid, s.candidateSlot))
            && (exists r :: Before(h, k, ReleaseRead(pid, r)) && r.version == s.targetVersion && r.buildId == s.buildId)
            && (exists from :: Before(h, k, Admitted(s.attemptId, from, s.targetVersion, s.buildId)) &&
                               StrictlyNewer(s.targetVersion, from))
            && (exists p :: Before(h, k, Installed(p, s.attemptId)))
  {
    hide StrictlyNewer, ReleaseValid, Before;
    var p := h[..k];
    var pid, s := h[k].pid, h[k].record;
    assert Permitted(p, h[k]);
    var b :| BootSeen(pid, b) in p && b != s.bootIdBefore;
    var r :| ReleaseRead(pid, r) in p && CandidateRelease(r, s);
    var from :| Admitted(s.attemptId, from, s.targetVersion, s.buildId) in p && StrictlyNewer(s.targetVersion, from);
    var installer := InstallRecorded(p, s.attemptId);
    Recall(h, k, BootSeen(pid, b));
    Recall(h, k, HealthPassed(pid, s.attemptId));
    Recall(h, k, SlotSeen(pid, s.candidateSlot));
    Recall(h, k, ReleaseRead(pid, r));
    Recall(h, k, Admitted(s.attemptId, from, s.targetVersion, s.buildId));
    Recall(h, k, Installed(installer, s.attemptId));
  }

  lemma {:induction false} InstallRecorded(h: seq<Event>, a: string) returns (pid: nat)
    requires a in Summary(h).installs
    ensures Installed(pid, a) in h
  {
    var last := h[|h| - 1];
    if last.Installed? && last.attempt == a {
      pid := last.pid;
    } else {
      pid := InstallRecorded(h[..|h| - 1], a);
    }
  }

  /**
   A reboot is asked for only with the state that authorises it durable: the step just before is
   the fsync of that record; an install reboot is asked for in the very boot the install was made
   in, a rollback reboot by a process that saw the candidate slot as current.
   */
  lemma RebootIsAuthorised(h: seq<Event>, k: nat)
    requires Lawful(h) && k < |h| && h[k].RebootAsked?
    ensures var pid, s := h[k].pid, h[k].record;
            && k > 0 && h[k - 1] == Durable(s)
            && ((s.state == RebootPending && Before(h, k, BootSeen(pid, s.bootIdBefore))) ||
                (s.state == Rollback && s.context == RebootHealthFailure &&
                 Before(h, k, SlotSeen(pid, s.candidateSlot))))
  {
    hide Before;
    var p := h[..k];
    var pid, s := h[k].pid, h[k].record;
    assert Permitted(p, h[k]) && p[k - 1] == h[k - 1];
    if s.state == RebootPending {
      Recall(h, k, BootSeen(pid, s.bootIdBefore));
    } else {
      Recall(h, k, SlotSeen(pid, s.candidateSlot));
    }
  }

  /** An install starts only after INSTALLING for that attempt became durable, with no write since. */
  lemma InstallIsRecordedFirst(h: seq<Event>, k: nat)
    requires Lawful(h) && k < |h| && h[k].Installed?
    ensures exists i :: 0 <= i < k && h[i].Durable? && h[i].record.state == Installing &&
                        h[i].record.attemptId == h[k].attempt &&
                        forall j :: i < j < k ==> !h[j].Renamed? && !h[j].Durable?
  {
    var p := h[..k];
    assert Permitted(p, h[k]);
    DiskComesLast(p);
    var i :| 0 <= i < |p| && p[i] == Summary(p).disk.value &&
             forall j :: i < j < |p| ==> !p[j].Renamed? && !p[j].Durable?;
    assert h[i] == p[i];
    forall j | i < j < k ensures !h[j].Renamed? && !h[j].Durable? {
      assert h[j] == p[j];
    }
  }

  /** Every mark counted is in the history. */
  lemma {:induction false} MarkRecorded(h: seq<Event>, a: string, good: bool) returns (pid: nat, s: Persistent)
    requires a in if good then Summary(h).goods else Summary(h).bads
    ensures s.attemptId == a && (if good then MarkedGood(pid, s) else MarkedBad(pid, s)) in h
  {
    var last := h[|h| - 1];
    if (if good then last.MarkedGood? else last.MarkedBad?) && last.record.attemptId == a {
      pid, s := last.pid, last.record;
    } else {
      pid, s := MarkRecorded(h[..|h| - 1], a, good);
    }
  }

  /**
   A durable record tells the truth: the actions of all states before its own have succeeded for its attempt, its
   install has been made, a success has been marked good after a passed health check, and a health roll-back marked bad.
   */
  lemma RecordIsEarned(h: seq<Event>, k: nat)
    requires Lawful(h) && k < |h| && h[k].Durable? && h[k].record.state != Error
    ensures var s := h[k].record;
      var a, i := s.attemptId, Index(s.state);
      && (i > 3 ==> Before(h, k, Performed(Precheck, a)))
      && (i > 4 ==> Before(h, k, Performed(Downloading, a)))
      && (i > 5 ==> Before(h, k, Performed(VerifyDownload, a)))
      && (i > 6 ==> Before(h, k, Performed(RaucVerify, a)))
      && (i > 7 ==> exists p :: Before(h, k, Installed(p, a)))
      && (s.state == MarkGood || s.state == ReportSuccess ==> exists p :: Before(h, k, HealthPassed(p, a)))
      && (s.state == ReportSuccess ==> exists p, r :: Before(h, k, MarkedGood(p, r)) && r.attemptId == a)
      && (s.state == Rollback && s.context == RebootHealthFailure ==> exists p, r :: Before(h, k, MarkedBad(p, r)) && r.attemptId == a)
  {
    hide Before, Lawful, Earned, Summary;
    var s := h[k].record;
    var i := WrittenAt(h, k);
    EarnedAt(h, i);
    RecallAll(h, i, k, s);
    EffectsRecalled(h, i, k, s);
  }

  lemma EarnedAt(h: seq<Event>, i: nat)
    requires Lawful(h) && i < |h| && h[i].Renamed?
    ensures Earned(h[..i], h[i].record)
  {
    hide Earned, Survivors, Replaces;
    assert Permitted(h[..i], h[i]);
  }

  lemma EffectsRecalled(h: seq<Event>, i: nat, k: nat, s: Persistent)
    requires i <= k <= |h| && Earned(h[..i], s) && s.state != Error
    ensures var a, n := s.attemptId, Index(s.state);
      && (n > 7 ==> exists p :: Before(h, k, Installed(p, a)))
      && (s.state == ReportSuccess ==> exists p, r :: Before(h, k, MarkedGood(p, r)) && r.attemptId == a)
      && (s.state == Rollback && s.context == RebootHealthFailure ==> exists p, r :: Before(h, k, MarkedBad(p, r)) && r.attemptId == a)
  {
    hide Before, Summary;
    var p := h[..i];
    if Index(s.state) > 7 {
      var pid := InstallRecorded(p, s.attemptId);
      Recalled(h, i, k, Installed(pid, s.attemptId));
    }
    if s.state == ReportSuccess {
      var pid, r := MarkRecorded(p, s.attemptId, true);
      Recalled(h, i, k, MarkedGood(pid, r));
    }
    if s.state == Rollback && s.context == RebootHealthFailure {
      var pid, r := MarkRecorded(p, s.attemptId, false);
      Recalled(h, i, k, MarkedBad(pid, r));
    }
  }

  lemma Recalled(h: seq<Event>, i: nat, k: nat, e: Event)
    requires i <= k <= |h| && e in h[..i]
    ensures Before(h, k, e)
  {
    Recall(h, i, e);
  }

  lemma RecallAll(h: seq<Event>, i: nat, k: nat, s: Persistent)
    requires i <= k <= |h| && Earned(h[..i], s) && s.state != Error
    ensures var a, n := s.attemptId, Index(s.state);
      && (n > 3 ==> Before(h, k, Performed(Precheck, a)))
      && (n > 4 ==> Before(h, k, Performed(Downloading, a)))
      && (n > 5 ==> Before(h, k, Performed(VerifyDownload, a)))
      && (n > 6 ==> Before(h, k, Performed(RaucVerify, a)))
      && (s.state == MarkGood || s.state == ReportSuccess ==> exists p :: Before(h, k, HealthPassed(p, a)))
  {
    hide Before, Summary;
    var p, a, n := h[..i], s.attemptId, Index(s.state);
    if n > 3 {
      Recalled(h, i, k, Performed(Precheck, a));
    }
    if n > 4 {
      Recalled(h, i, k, Performed(Downloading, a));
    }
    if n > 5 {
      Recalled(h, i, k, Performed(VerifyDownload, a));
    }
    if n > 6 {
      Recalled(h, i, k, Performed(RaucVerify, a));
    }
    if s.state == MarkGood || s.state == ReportSuccess {
      var pid :| HealthPassed(pid, a) in p;
      Recalled(h, i, k, HealthPassed(pid, a));
    }
  }

  /** The rename that a sync makes durable. */
  lemma WrittenAt(h: seq<Event>, k: nat) returns (i: nat)
    requires Lawful(h) && k < |h| && h[k].Durable?
    ensures i < k && h[i].Renamed? && h[i].record == h[k].record
  {
    var p := h[..k];
    assert Permitted(p, h[k]);
    DiskComesLast(p);
    i :| 0 <= i < |p| && p[i] == Summary(p).disk.value;
  }

  /** A success is forgotten only after it has been reported. */
  lemma SuccessIsReported(h: seq<Event>, k: nat)
    requires Lawful(h) && k < |h| && h[k].Renamed? && h[k].before.Some?
    requires h[k].before.value.state == ReportSuccess && h[k].record.state == Idle
    ensures Before(h, k, Performed(ReportSuccess, h[k].before.value.attemptId))
  {
    hide Before;
    assert Permitted(h[..k], h[k]);
    Recall(h, k, Performed(ReportSuccess, h[k].before.value.attemptId));
  }

  predicate OnDisk(e: Event) {
    e.Renamed? || e.Durable?
  }

  /** The record of the last disk event is among the survivors. */
  lemma {:induction false} DiskSurvives(h: seq<Event>)
    ensures Summary(h).disk.Some? ==> OnDisk(Summary(h).disk.value) && Some(Summary(h).disk.value.record) in Survivors(h)
  {
    if h != [] {
      DiskSurvives(h[..|h| - 1]);
    }
  }

  /** After the error of an attempt became durable, no other content is possible any more. */
  lemma {:induction false} OnlyTheError(h: seq<Event>, i: nat, j: nat)
    requires Lawful(h) && i < j <= |h| && h[i].Durable? && h[i].record.lastError.code != NoError
    ensures Survivors(h[..j]) == {Some(h[i].record)}
    decreases j
  {
    hide Follows, Permitted;
    assert h[..j] == h[..j - 1] + [h[j - 1]];
    SurvivorsSnoc(h[..j - 1], h[j - 1]);
    if i < j - 1 {
      OnlyTheError(h, i, j - 1);
      assert Permitted(h[..j - 1], h[j - 1]);
      NextSurvivor(h[..j - 1], h[j - 1]);
    }
  }

  /** What a disk event writes replaces, or is, one of the survivors before it. */
  lemma NextSurvivor(h: seq<Event>, e: Event)
    requires Permitted(h, e)
    ensures e.Renamed? ==> e.before in Survivors(h) && Replaces(e.before, e.record)
    ensures e.Durable? ==> Some(e.record) in Survivors(h)
  {
    hide Summary, Survivors, Follows;
    DiskSurvives(h);
  }

  /** The first recorded error is never overwritten: every later write of the file repeats its record. */
  lemma FirstErrorIsKept(h: seq<Event>, i: nat, j: nat)
    requires Lawful(h) && i < j < |h| && h[i].Durable? && h[i].record.lastError.code != NoError && OnDisk(h[j])
    ensures h[j].record == h[i].record
  {
    hide Follows, Permitted;
    OnlyTheError(h, i, j);
    assert Permitted(h[..j], h[j]);
    NextSurvivor(h[..j], h[j]);
  }

  /** No rename between the positions resets the agent to IDLE. */
  predicate NoReset(h: seq<Event>, i: nat, j: nat)
    requires i <= j <= |h|
  {
    forall k :: i <= k < j && h[k].Renamed? ==> h[k].record.state != Idle || (h[k].before.Some? && h[k].before.value == h[k].record)
  }

  predicate SameOrHigher(s: Persistent, f: File) {
    f.Some? && (f.value == s || Index(s.state) < Index(f.value.state))
  }

  lemma {:induction false} SurvivorsRise(h: seq<Event>, i: nat, j: nat)
    requires Lawful(h) && i < j <= |h| && h[i].Durable? && NoReset(h, i, j)
    ensures forall f <- Survivors(h[..j]) :: SameOrHigher(h[i].record, f)
    decreases j
  {
    hide Follows, Permitted;
    var g, e := h[..j - 1], h[j - 1];
    assert h[..j] == g + [e];
    SurvivorsSnoc(g, e);
    if i < j - 1 {
      SurvivorsRise(h, i, j - 1);
      assert Permitted(h[..j - 1], h[j - 1]);
      NextSurvivor(g, e);
      if e.Renamed? {
        ReplacementRises(h[i].record, e.before, e.record);
      }
    }
  }

  lemma ReplacementRises(s: Persistent, before: File, next: Persistent)
    requires SameOrHigher(s, before) && Replaces(before, next)
    requires next.state != Idle || before == Some(next)
    ensures SameOrHigher(s, Some(next))
  {
    hide Valid, IdentityKept, TransitionAllowed;
    if next != before.value {
      TransitionRaises(before.value.state, next.state);
    }
  }

  /** After a durable record, and until the next reset, every write repeats it or raises the state index. */
  lemma WritesRise(h: seq<Event>, i: nat, j: nat)
    requires Lawful(h) && i < j < |h| && h[i].Durable? && OnDisk(h[j]) && NoReset(h, i, j + 1)
    ensures h[j].record == h[i].record || Index(h[i].record.state) < Index(h[j].record.state)
  {
    hide Follows, Permitted, Survivors;
    SurvivorsRise(h, i, j + 1);
    assert h[..j + 1] == h[..j] + [h[j]];
    SurvivorsSnoc(h[..j], h[j]);
    assert Some(h[j].record) in Survivors(h[..j + 1]);
  }

  /** The position of the last durable record before `j`, from `i` on. */
  function LastDurable(h: seq<Event>, i: nat, j: nat): (k: nat)
    requires i < j <= |h| && h[i].Durable?
    ensures i <= k < j && h[k].Durable?
    decreases j
  {
    if i == j - 1 || h[j - 1].Durable? then j - 1 else LastDurable(h, i, j - 1)
  }

  /** How often the durable record changes between `i` and `j`. */
  function DurableMoves(h: seq<Event>, i: nat, j: nat): nat
    requires i < j <= |h| && h[i].Durable?
    decreases j
  {
    if i == j - 1 then 0
    else
      DurableMoves(h, i, j - 1) +
      (if h[j - 1].Durable? && h[j - 1].record != h[LastDurable(h, i, j - 1)].record then 1 else 0)
  }

  /** So between two resets the durable record moves at most fourteen times, each time upwards. */
  lemma {:induction false} DurableMovesAreFew(h: seq<Event>, i: nat, j: nat)
    requires Lawful(h) && i < j <= |h| && h[i].Durable? && NoReset(h, i, j)
    ensures DurableMoves(h, i, j) <= Index(h[LastDurable(h, i, j)].record.state) - Index(h[i].record.state) <= 14
    decreases j
  {
    hide Lawful, Index;
    if i < j - 1 {
      DurableMovesAreFew(h, i, j - 1);
      if h[j - 1].Durable? {
        WritesRise(h, LastDurable(h, i, j - 1), j - 1);
      }
    }
    IndexSpan(h[LastDurable(h, i, j)].record.state, h[i].record.state);
  }

  lemma IndexSpan(s: State, t: State)
    ensures Index(s) - Index(t) <= 14
  {
  }

  function InState(s: State): Persistent {
    FRESH.(state := s)
  }

  lemma NothingYet()
    ensures Lawful([]) && Survivors([]) == {None}
  {
  }

  lemma RenamePermitted(h: seq<Event>, before: File, next: Persistent)
    requires before in Survivors(h) && Replaces(before, next) && Vouched(h, before, next)
    ensures Permitted(h, Renamed(before, next))
  {
  }

  /** A rename and its sync. */
  lemma Written(h: seq<Event>, before: File, next: Persistent) returns (g: seq<Event>)
    requires Lawful(h) && before in Survivors(h) && Replaces(before, next) && Vouched(h, before, next)
    ensures g == h + [Renamed(before, next), Durable(next)] && Lawful(g) && Survivors(g) == {Some(next)}
  {
    hide Follows, Survivors, Summary, Lawful;
    var h1 := h + [Renamed(before, next)];
    SummarySnoc(h, Renamed(before, next));
    LawfulSnoc(h, Renamed(before, next));
    LawfulSnoc(h1, Durable(next));
    SurvivorsSnoc(h1, Durable(next));
    g := h + [Renamed(before, next), Durable(next)];
    assert g == h1 + [Durable(next)];
  }

  /** The next durable record may be one that is neither `s`, nor higher, nor IDLE. */
  ghost predicate CanFall(h: seq<Event>, s: Persistent) {
    exists before: File, t: Persistent ::
      t != s && t.state != Idle && Index(t.state) <= Index(s.state) && Lawful(h + [Renamed(before, t), Durable(t)])
  }

  /** A reset to IDLE has been renamed into place since position `i`. */
  predicate ResetSince(h: seq<Event>, i: nat) {
    exists k :: i < k < |h| && h[k].Renamed? && h[k].record.state == Idle
  }

  /** The state file says IDLE only in a record without attempt and error. */
  lemma {:induction false} IdleIsClean(h: seq<Event>, s: Persistent)
    requires Lawful(h) && Some(s) in Survivors(h) && s.state == Idle
    ensures Replaces(Some(s), InState(CheckNetwork))
  {
    hide Permitted, Valid, IdentityKept;
    assert h != [];
    var g, e := h[..|h| - 1], h[|h| - 1];
    assert Permitted(g, e);
    NextSurvivor(g, e);
    forall k | 0 <= k < |g| ensures Permitted(g[..k], g[k]) {
      assert g[..k] == h[..k];
    }
    if Some(s) in Survivors(g) {
      IdleIsClean(g, s);
    } else {
      CleanSuccessor(e.before, s);
    }
  }

  lemma CleanSuccessor(before: File, s: Persistent)
    requires Replaces(before, s) && before != Some(s) && s.state == Idle
    ensures Replaces(Some(s), InState(CheckNetwork))
  {
    NetworkValid();
    hide TextsValid;
  }

  lemma NetworkValid()
    ensures Valid(InState(CheckNetwork)) && Valid(FRESH)
  {
  }

  lemma {:induction false} StillSurvives(h: seq<Event>, i: nat, k: nat, j: nat)
    requires i < k < j <= |h| && h[k].Renamed? && forall l :: i < l < |h| ==> !h[l].Durable?
    ensures Some(h[k].record) in Survivors(h[..j])
    decreases j
  {
    assert h[..j] == h[..j - 1] + [h[j - 1]];
    SurvivorsSnoc(h[..j - 1], h[j - 1]);
    if k < j - 1 {
      StillSurvives(h, i, k, j - 1);
    }
  }

  /**
   After the last durable record the next one may be lower without being IDLE exactly if a reset has
   been renamed into place in between: its sync failed, and the next process went on from IDLE.
   */
  lemma FallsExactly(h: seq<Event>, i: nat)
    requires Lawful(h) && i < |h| && h[i].Durable? && forall l :: i < l < |h| ==> !h[l].Durable?
    requires Index(CheckNetwork) < Index(h[i].record.state)
    ensures CanFall(h, h[i].record) <==> ResetSince(h, i)
  {
    hide Lawful, Permitted, Replaces, Survivors;
    var s, network := h[i].record, InState(CheckNetwork);
    if CanFall(h, s) && !ResetSince(h, i) {
      var before: File, t: Persistent :| t != s && t.state != Idle && Index(t.state) <= Index(s.state) &&
                                         Lawful(h + [Renamed(before, t), Durable(t)]);
      WritesRise(h + [Renamed(before, t), Durable(t)], i, |h|);
    }
    if ResetSince(h, i) {
      var k :| i < k < |h| && h[k].Renamed? && h[k].record.state == Idle;
      StillSurvives(h, i, k, |h|);
      assert h[..|h|] == h;
      IdleIsClean(h, h[k].record);
      var g := Written(h, Some(h[k].record), network);
      assert g == h + [Renamed(Some(h[k].record), network), Durable(network)];
    }
  }

  /** An unsynced reset and a move on from it. */
  function Fall(s: Persistent): seq<Event> {
    [Renamed(Some(s), FRESH), Renamed(Some(FRESH), InState(CheckNetwork)), Durable(InState(CheckNetwork))]
  }

  /** It may follow a durable record, whatever the history before, exactly in the three states that can be reset. */
  lemma ResetFalls(h: seq<Event>, s: Persistent)
    requires Lawful(h) && Survivors(h) == {Some(s)} && Index(CheckNetwork) < Index(s.state)
    ensures Lawful(h + Fall(s)) <==>
            && s.lastError.code == NoError
            && (s.state == CheckUpdate || s.state == Precheck ||
                (s.state == ReportSuccess && Performed(ReportSuccess, s.attemptId) in h))
  {
    hide Lawful, Summary, Survivors, Valid;
    var reset := Renamed(Some(s), FRESH);
    NetworkValid();
    if Lawful(h + Fall(s)) {
      LawfulAt(h + Fall(s), |h|);
      assert (h + Fall(s))[..|h|] == h && (h + Fall(s))[|h|] == reset;
    }
    if Replaces(Some(s), FRESH) && Vouched(h, Some(s), FRESH) {
      RenamePermitted(h, Some(s), FRESH);
      LawfulSnoc(h, reset);
      SurvivorsSnoc(h, reset);
      var g := Written(h + [reset], Some(FRESH), InState(CheckNetwork));
      assert g == h + Fall(s);
    }
  }

  lemma LawfulAt(h: seq<Event>, i: nat)
    requires Lawful(h) && i < |h|
    ensures Permitted(h[..i], h[i])
  {
    hide Permitted;
  }

  /** Such a fall happens: from CHECK_UPDATE to CHECK_NETWORK. */
  lemma UnsyncedReset() returns (h: seq<Event>)
    ensures Lawful(h) && |h| == 9
    ensures h[5] == Durable(InState(CheckUpdate)) && h[8] == Durable(InState(CheckNetwork)) && h[6].Renamed? && h[7].Renamed?
  {
    var idle, network, update := InState(Idle), InState(CheckNetwork), InState(CheckUpdate);
    FirstMoves();
    hide Follows, Permitted, Lawful, Summary, Survivors;
    NothingYet();
    var h2 := Written([], None, idle);
    var h4 := Written(h2, Some(idle), network);
    var h6 := Written(h4, Some(network), update);
    ResetFalls(h6, update);
    h := h6 + Fall(update);
  }

  lemma FirstMoves()
    ensures var idle, network, update := InState(Idle), InState(CheckNetwork), InState(CheckUpdate);
            && FRESH == idle && idle.lastError.code == NoError && network.lastError.code == NoError && update.lastError.code == NoError
            && Follows(idle, network) && Follows(network, update) && Follows(update, idle)
  {
  }

  // ---------------------------------------------------------------- the world

  datatype World = World(
    visible: File, possible: set<File>, bootId: string, pid: nat,
    admitted: map<string, Event>, log: seq<Event>)

  /** What holds of every content the state file has, or could have after a power loss. */
  ghost predicate FileOk(f: File, admitted: map<string, Event>, d: Digest) {
    f.Some? ==>
      var s := f.value;
      && ShapeValid(s)
      && (s.state == Rollback ==> s.lastError.code != NoError)
      && (HasAttempt(s) ==>
            s.attemptId in admitted && admitted[s.attemptId].Admitted? &&
            admitted[s.attemptId].version == s.targetVersion && admitted[s.attemptId].build == s.buildId)
      && (s.attemptId in d.installs ==> Index(s.state) >= 7)
      && (s.attemptId in d.bads ==> Index(s.state) >= 10)
      && (s.attemptId in d.goods ==> Index(s.state) >= 11)
      && (8 <= Index(s.state) <= 13 ==> s.attemptId in d.installs)
  }

  ghost predicate AdmissionsOk(admitted: map<string, Event>, h: seq<Event>) {
    forall a :: a in admitted ==>
      a != "" && admitted[a] in h && admitted[a].Admitted? && admitted[a].attempt == a &&
      StrictlyNewer(admitted[a].version, admitted[a].from)
  }

  ghost predicate AllEarned(files: set<File>, h: seq<Event>) {
    forall f <- files :: f.Some? ==> Valid(f.value) && Earned(h, f.value)
  }

  lemma EarnedGrows(h: seq<Event>, e: Event, s: Persistent)
    requires Earned(h, s)
    ensures Earned(h + [e], s)
  {
    SummarySnoc(h, e);
  }

  lemma AllEarnedGrows(files: set<File>, h: seq<Event>, e: Event)
    requires AllEarned(files, h)
    ensures AllEarned(files, h + [e])
  {
    hide Earned, Valid;
    forall f <- files | f.Some? ensures Valid(f.value) && Earned(h + [e], f.value) {
      EarnedGrows(h, e, f.value);
    }
  }

  ghost predicate Inv(w: World) {
    var d := Summary(w.log);
    && w.visible in w.possible && w.possible <= Survivors(w.log)
    && (forall f :: f in w.possible ==> FileOk(f, w.admitted, d))
    && AdmissionsOk(w.admitted, w.log)
    && d.installs <= w.admitted.Keys && d.goods <= w.admitted.Keys && d.bads <= w.admitted.Keys
    && (d.disk.Some? && d.disk.value.Durable? ==> w.possible == {Some(d.disk.value.record)})
    && AllEarned(w.possible, w.log)
    && Lawful(w.log)
  }

  /** `w1` is a later world of the same boot and process. */
  ghost predicate Later(w0: World, w1: World) {
    && w1.bootId == w0.bootId && w1.pid == w0.pid && w0.log <= w1.log
    && (forall a :: a in w0.admitted ==> a in w1.admitted && w1.admitted[a] == w0.admitted[a])
  }

  predicate Observation(e: Event) {
    e.ReleaseRead? || e.BootSeen? || e.SlotSeen? || e.HealthPassed? || e.Performed?
  }

  function Noted(w: World, e: Event): World {
    w.(log := w.log + [e])
  }

  function AfterRename(w: World, next: Persistent): World {
    w.(visible := Some(next), possible := w.possible + {Some(next)}, log := w.log + [Renamed(w.visible, next)])
  }

  function AfterFsync(w: World, next: Persistent): World {
    w.(possible := {Some(next)}, log := w.log + [Durable(next)])
  }

  function AfterAdmission(w: World, e: Event): World
    requires e.Admitted?
  {
    w.(admitted := w.admitted[e.attempt := e], log := w.log + [e])
  }

  /** Conditions under which `next` may take the place of the visible file. */
  ghost predicate Writable(w: World, next: Persistent) {
    var d := Summary(w.log);
    && Replaces(w.visible, next) && Vouched(w.log, w.visible, next) && Valid(next)
    && (w.visible.Some? && next != w.visible.value ==>
          && (next.state == Rollback ==> next.lastError.code != NoError)
          && (next.state == RebootPending ==> next.attemptId in d.installs)
          && (HasAttempt(next) && !HasAttempt(w.visible.value) ==>
                && next.attemptId !in d.installs && next.attemptId !in d.goods && next.attemptId !in d.bads
                && next.attemptId in w.admitted && w.admitted[next.attemptId].Admitted?
                && w.admitted[next.attemptId].version == next.targetVersion
                && w.admitted[next.attemptId].build == next.buildId))
  }

  lemma AdmissionsGrow(admitted: map<string, Event>, h: seq<Event>, e: Event)
    requires AdmissionsOk(admitted, h)
    ensures AdmissionsOk(admitted, h + [e])
  {
    hide StrictlyNewer;
  }

  lemma NoteKeeps(w: World, e: Event)
    requires Inv(w) && Permitted(w.log, e) && (Observation(e) || e.RebootAsked?)
    ensures Inv(Noted(w, e)) && Summary(Noted(w, e).log) == Summary(w.log)
  {
    hide Permitted, Lawful, FileOk, Summary, Survivors, AdmissionsOk, AllEarned;
    SummarySnoc(w.log, e);
    SurvivorsSnoc(w.log, e);
    AllEarnedGrows(w.possible, w.log, e);
    LawfulSnoc(w.log, e);
    AdmissionsGrow(w.admitted, w.log, e);
  }

  lemma AdmissionKeeps(w: World, e: Event)
    requires Inv(w) && e.Admitted? && e.attempt !in w.admitted && e.attempt != ""
    requires StrictlyNewer(e.version, e.from)
    ensures Inv(AfterAdmission(w, e)) && Summary(AfterAdmission(w, e).log) == Summary(w.log)
  {
    hide StrictlyNewer, Survivors, Summary, Permitted, Lawful, ShapeValid, AllEarned;
    PermittedFree(w.log, e);
    AllEarnedGrows(w.possible, w.log, e);
    SummarySnoc(w.log, e);
    SurvivorsSnoc(w.log, e);
    LawfulSnoc(w.log, e);
    var w1 := AfterAdmission(w, e);
    forall f | f in w1.possible ensures FileOk(f, w1.admitted, Summary(w1.log)) {
      assert FileOk(f, w.admitted, Summary(w.log));
    }
  }

  lemma NewRecordOk(w: World, next: Persistent)
    requires Inv(w) && Writable(w, next)
    ensures FileOk(Some(next), w.admitted, Summary(w.log))
  {
    hide TextsValid, Lawful, StrictlyNewer, TransitionAllowed, Summary;
    assert FileOk(w.visible, w.admitted, Summary(w.log));
    if w.visible.Some? && next != w.visible.value {
      var prev := w.visible.value;
      if next.state != Idle {
        TransitionRaises(prev.state, next.state);
      }
    }
  }

  lemma RenameKeeps(w: World, next: Persistent)
    requires Inv(w) && Writable(w, next)
    ensures Inv(AfterRename(w, next))
  {
    hide Valid, Summary, Survivors, Earned, FileOk, AdmissionsOk;
    AllEarnedGrows(w.possible, w.log, Renamed(w.visible, next));
    EarnedGrows(w.log, Renamed(w.visible, next), next);
    AdmissionsGrow(w.admitted, w.log, Renamed(w.visible, next));
    NewRecordOk(w, next);
    SummarySnoc(w.log, Renamed(w.visible, next));
    SurvivorsSnoc(w.log, Renamed(w.visible, next));
    LawfulSnoc(w.log, Renamed(w.visible, next));
    RenamedFiles(w, next);
  }

  lemma RenamedFiles(w: World, next: Persistent)
    requires Inv(w) && FileOk(Some(next), w.admitted, Summary(w.log))
    ensures forall f :: f in AfterRename(w, next).possible ==> FileOk(f, w.admitted, Summary(AfterRename(w, next).log))
  {
    hide Valid, ShapeValid, Summary, Survivors, Earned, Lawful, AdmissionsOk, AllEarned, StrictlyNewer;
    SummarySnoc(w.log, Renamed(w.visible, next));
    forall f | f in AfterRename(w, next).possible ensures FileOk(f, w.admitted, Summary(AfterRename(w, next).log)) {
      assert f == Some(next) || FileOk(f, w.admitted, Summary(w.log));
    }
  }

  lemma FsyncKeeps(w: World, next: Persistent)
    requires Inv(w) && w.visible == Some(next)
    requires Permitted(w.log, Durable(next))
    ensures Inv(AfterFsync(w, next))
  {
    hide Valid, ShapeValid, Permitted, Summary, Survivors, Earned;
    AllEarnedGrows(w.possible, w.log, Durable(next));
    AdmissionsGrow(w.admitted, w.log, Durable(next));
    SummarySnoc(w.log, Durable(next));
    SurvivorsSnoc(w.log, Durable(next));
    LawfulSnoc(w.log, Durable(next));
    assert FileOk(Some(next), w.admitted, Summary(w.log));
  }

  /** Right after the rename the sync is permitted. */
  lemma SyncFollows(w: World, next: Persistent)
    ensures Permitted(AfterRename(w, next).log, Durable(next))
  {
    SummarySnoc(w.log, Renamed(w.visible, next));
  }

  lemma PermittedFree(h: seq<Event>, e: Event)
    requires e.Admitted? || Observation(e)
    ensures Permitted(h, e)
  {
  }

  lemma EffectShape(h: seq<Event>, e: Event)
    requires Permitted(h, e)
    ensures e.MarkedGood? ==> e.record.state == MarkGood
    ensures e.MarkedBad? ==> e.record.state == HealthCheck
  {
  }

  lemma EffectFileOk(s: Persistent, admitted: map<string, Event>, d: Digest, e: Event)
    requires FileOk(Some(s), admitted, d)
    requires (e.Installed? && e.attempt == s.attemptId && Index(s.state) >= 7) ||
             (e.MarkedGood? && e.record == s && Index(s.state) >= 11) ||
             (e.MarkedBad? && e.record == s && Index(s.state) >= 10)
    ensures FileOk(Some(s), admitted, Extend(d, e))
    ensures HasAttempt(s) ==> s.attemptId in admitted
  {
    hide ShapeValid;
  }

  /** Installing or marking: the effect is recorded for an attempt whose only record is `s`. */
  lemma EffectKeeps(w: World, e: Event, s: Persistent)
    requires Inv(w) && Permitted(w.log, e) && w.possible == {Some(s)} && HasAttempt(s)
    requires (e.Installed? && e.attempt == s.attemptId && s.state == Installing) ||
             (e.MarkedGood? && e.record == s) || (e.MarkedBad? && e.record == s)
    ensures Inv(Noted(w, e))
  {
    hide Permitted, Lawful, FileOk, Summary, Survivors, AdmissionsOk, AllEarned;
    SurvivorsSnoc(w.log, e);
    AllEarnedGrows(w.possible, w.log, e);
    EffectShape(w.log, e);
    assert Some(s) in w.possible;
    EffectFileOk(s, w.admitted, Summary(w.log), e);
    SummarySnoc(w.log, e);
    LawfulSnoc(w.log, e);
    AdmissionsGrow(w.admitted, w.log, e);
  }

  /** Power loss: the kernel comes back with one of the contents that could have survived. */
  function AfterPower(w: World, survivor: File, bootId: string): World {
    w.(visible := survivor, possible := {survivor}, bootId := bootId)
  }

  lemma PowerKeeps(w: World, survivor: File, bootId: string)
    requires Inv(w) && survivor in w.possible
    ensures Inv(AfterPower(w, survivor, bootId))
  {
  }
}
