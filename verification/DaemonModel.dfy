/**
 The provisioning daemon's main loop (main.c, operations.c): window, fragments, one worker, one
 result. Each event is one main-loop callback; the worker thread shows itself only when it ends.
 */
module DaemonModel {
  import opened Bytes
  import opened ProtocolKeys
  import opened Frame
  import opened Reassembly
  import opened ReassemblyRuns
  import opened Security
  import opened Wrappers

  const RESULT_MAX := 512

  /** What egp_operations is busy with. */
  datatype Job = Idle | Working(request: Request, windowEpoch: epoch, connectionEpoch: epoch) | Reconciling

  /** The daemon's fields, then two of its history: the clock, and what completed since the tables were last emptied. */
  datatype Moment = Moment(
    tables: Tables,
    window: Window,
    job: Job,
    active: Option<Tag>,
    resultPeer: string,
    lastResult: seq<byte>,
    clock: int,
    completions: seq<Tag>)

  const FIRST := Moment(EMPTY, SHUT, Idle, None, "", [], 0, [])

  /** One WriteValue call with everything the environment answers on the way. */
  datatype Attempt = Attempt(
    slot: Slot,
    value: seq<byte>,
    answer: Option<PeerSecurity>,   // egp_bluez_peer_security
    idle: bool,                     // egp_status_agent_idle
    paired: int, received: int, authorized: int, published: int,  // the clock at each use
    reply: Reply, swept: Tables, accepted: Tables,                // egp_protocol_accept
    closing: bool,
    notice: seq<byte>, noted: bool, resweep: Tables)              // the ACCEPTED result, and its caching

  datatype Event =
    | Press(now: int)
    | Shut
    | Expiry(now: int)
    | BluezLost
    | Disconnected(peer: string)
    | Sweep(now: int)
    | Written(attempt: Attempt)
    | Reconcile
    | Done(result: seq<byte>, ended: bool, now: int, noted: bool, resweep: Tables)

  // ---------------------------------------------------------------- steps

  function TagOf(r: Request): Tag {
    Tag(r.slot, r.id)
  }

  /** window_changed and bluez_lost: nothing is carried across the boundary. */
  function Cleared(s: Moment, w: Window): Moment {
    Moment(EMPTY, w, s.job, None, "", [], s.clock, [])
  }

  function Later(s: Moment, now: int): Moment {
    s.(clock := now)
  }

  function CloseStep(s: Moment): Moment {
    if s.window.open || s.window.owner != "" then Cleared(s, Closed(s.window)) else s.(window := Closed(s.window))
  }

  predicate Publishable(s: Moment, peer: string, json: seq<byte>) {
    s.active.Some? && peer == s.active.value.slot.peer && 0 < |json| <= RESULT_MAX
  }

  /** result_published: cache the result under the active request, keep it for reading. */
  ghost predicate Published(pre: Moment, post: Moment, peer: string, json: seq<byte>, ended: bool, now: int, noted: bool, resweep: Tables) {
    if !Publishable(pre, peer, json) then post == Later(pre, now)
    else
      && Cached(pre.tables, resweep, post.tables, pre.active.value, json, now, noted)
      && post == pre.(tables := post.tables, resultPeer := peer, lastResult := json, clock := now,
                      active := if ended then None else pre.active)
  }

  /** write_value up to the protocol engine's answer: refused for good, or on. */
  predicate LetIn(s: Moment, a: Attempt) {
    s.job.Idle? && a.answer.Some? && AllowPairing(s.window, a.slot.peer, a.paired).Allowed? && a.idle
  }

  predicate Timed(s: Moment, a: Attempt) {
    s.clock <= a.paired <= a.received <= a.authorized <= a.published <= CLOCK_MAX
  }

  /** egp_bluez_peer_security reports only such peers. */
  predicate AnswerOk(a: Attempt) {
    a.answer.Some? ==> Bonded(a.answer.value)
  }

  predicate Bonded(p: PeerSecurity) {
    p.paired && p.bonded && p.stableIdentity && p.encrypted && p.connectionEpoch != 0
  }

  ghost predicate WriteStep(pre: Moment, post: Moment, a: Attempt) {
    && Timed(pre, a) && AnswerOk(a)
    && if !LetIn(pre, a) then Turned(pre, post, a)
       else
         && Accepts(pre.tables, a.swept, a.accepted, a.slot, a.value, a.received, a.reply)
         && if a.reply.Refused? then post == pre.(tables := a.accepted, clock := a.published)
            else if Judgement(pre, a).Denied? then post == Later(DenyStep(pre, a), a.published)
            else AdmitStep(pre, post, a)
  }

  /** Refused before the protocol engine saw it. */
  predicate Turned(pre: Moment, post: Moment, a: Attempt) {
    post == if pre.job.Idle? && a.answer.Some? && AllowPairing(pre.window, a.slot.peer, a.paired).Allowed? then
              pre.(tables := WithoutPeer(pre.tables, a.slot.peer), clock := a.published)
            else Later(pre, a.published)
  }

  function Judgement(s: Moment, a: Attempt): Verdict
    requires a.answer.Some?
  {
    AuthorizeSensitive(s.window, a.slot.peer, a.answer.value, true, a.authorized)
  }

  /** An accepted frame whose sender is refused: everything is dropped, the replay cache too. */
  function DenyStep(s: Moment, a: Attempt): Moment
    requires a.answer.Some? && Judgement(s, a).Denied?
  {
    var emptied := s.(tables := EMPTY, completions := []);
    if Judgement(s, a).reason.WindowClosed? then CloseStep(emptied) else emptied
  }

  ghost predicate AdmitStep(pre: Moment, post: Moment, a: Attempt)
    requires a.answer.Some? && !a.reply.Refused?
  {
    var s := pre.(tables := a.accepted, window := Claimed(pre.window, a.slot.peer, a.answer.value, true, a.authorized));
    match a.reply
    case Pending => post == Later(s, a.published)
    case Replay(request, cached) =>
      post == Later(if 0 < |cached| <= RESULT_MAX then s.(resultPeer := a.slot.peer, lastResult := cached) else s, a.published)
    case Complete(request) =>
      var done := s.(completions := s.completions + [TagOf(request)]);
      if a.closing || a.notice == [] then post == Later(done, a.published).(active := None)
      else
        Published(done.(active := Some(TagOf(request)),
                        job := Working(request, s.window.epoch, a.answer.value.connectionEpoch)),
                  post, a.slot.peer, a.notice, false, a.published, a.noted, a.resweep)
    case Refused(_) => false
  }

  /** read_value of OPERATION_RESULT; `answer` is egp_bluez_peer_security's. */
  function Readable(s: Moment, peer: string, answer: Option<PeerSecurity>, now: int): Option<seq<byte>> {
    if answer.Some? && AuthorizeSensitive(s.window, peer, answer.value, false, now).Allowed? && s.lastResult != [] && s.resultPeer == peer then
      Some(s.lastResult)
    else None
  }

  ghost predicate Handles(e: Event, pre: Moment, post: Moment) {
    match e
    case Press(now) =>
      pre.clock <= now <= CLOCK_MAX &&
      post == if now > 0 then Later(Cleared(pre, Opened(pre.window, now)), now) else Later(pre, now)
    case Shut => post == CloseStep(pre)
    case Expiry(now) =>
      pre.clock <= now <= CLOCK_MAX &&
      post == if pre.window.open && now >= pre.window.deadline then Later(Cleared(pre, Ticked(pre.window, now)), now)
              else Later(pre, now)
    case BluezLost => post == Cleared(pre, BluezGone(pre.window))
    case Disconnected(peer) => post == pre.(tables := WithoutPeer(pre.tables, peer))
    case Sweep(now) =>
      && pre.clock <= now <= CLOCK_MAX && post == pre.(tables := post.tables, clock := now)
      && if now <= 0 then post.tables == pre.tables else Swept(pre.tables, post.tables, now)
    case Written(a) => WriteStep(pre, post, a)
    case Reconcile => post == if pre.job.Idle? then pre.(job := Reconciling) else pre
    case Done(result, ended, now, noted, resweep) =>
      && !pre.job.Idle? && pre.clock <= now <= CLOCK_MAX
      && var free := pre.(job := Idle);
         if pre.job.Reconciling? then post == Later(free, now)
         else Published(free, post, pre.job.request.slot.peer, result, ended, now, noted, resweep)
  }

  // ---------------------------------------------------------------- what every event keeps

  ghost predicate Distinct(tags: seq<Tag>) {
    forall i, j :: 0 <= i < j < |tags| ==> tags[i] != tags[j]
  }

  /** The window can no longer admit anyone. */
  predicate Past(s: Moment) {
    !s.window.open || s.clock >= s.window.deadline
  }

  /** Everything cached or in progress belongs to the owner of the present window. */
  ghost predicate OwnedByWindow(s: Moment) {
    && (s.window.owner != "" ==> s.window.open)
    && (forall slot <- s.tables.incomplete :: s.window.owner != "" && slot.peer == s.window.owner)
    && (forall t <- s.tables.completed :: s.window.owner != "" && t.slot.peer == s.window.owner)
    && (s.active.Some? ==> s.window.owner != "" && s.active.value.slot.peer == s.window.owner)
    && (s.lastResult != [] ==> s.window.owner != "" && s.resultPeer == s.window.owner)
  }

  /** While the worker runs for the active request, the cache entry of its name is its own. */
  ghost predicate WorkerMatches(s: Moment) {
    s.job.Working? ==>
      && |s.job.request.json| <= MAX_JSON
      && (s.active.Some? ==>
        && s.active.value == TagOf(s.job.request)
        && (s.active.value in s.tables.completed ==> s.tables.completed[s.active.value].digest == DigestOf(s.job.request)))
  }

  /** Nothing completed has been forgotten while the window can still admit a frame. */
  ghost predicate Remembers(s: Moment) {
    && (s.window.open ==> s.window.deadline <= s.clock + WINDOW_DURATION)
    && (forall t <- s.tables.completed :: s.window.open ==> s.tables.completed[t].expires >= s.window.deadline)
    && (|s.completions| <= CACHE_LIMIT ==>
      && Distinct(s.completions)
      && (forall t <- s.tables.completed :: t in s.completions)
      && (forall t <- s.completions :: t in s.tables.completed || Past(s)))
  }

  ghost predicate Inv(s: Moment) {
    TablesOk(s.tables) && OwnedByWindow(s) && WorkerMatches(s) && Remembers(s) && s.clock <= CLOCK_MAX
  }

  lemma FirstInv()
    ensures Inv(FIRST)
  {
  }

  lemma ClearedInv(s: Moment, w: Window)
    requires Inv(s) && w.owner == "" && (w.open ==> w.deadline <= s.clock + WINDOW_DURATION)
    ensures Inv(Cleared(s, w))
  {
  }

  lemma CloseInv(s: Moment)
    requires Inv(s)
    ensures Inv(CloseStep(s))
  {
    if s.window.open || s.window.owner != "" {
      ClearedInv(s, Closed(s.window));
    }
  }

  lemma SweepInv(pre: Moment, post: Moment, now: int)
    requires Inv(pre) && pre.clock <= now <= CLOCK_MAX && Swept(pre.tables, post.tables, now)
    requires post == pre.(tables := post.tables, clock := now)
    ensures Inv(post)
  {
    hide TransactionOk, Marked, DigestOf, TablesOk, Distinct;
    SweptOk(pre.tables, post.tables, now);
  }

  lemma LaterInv(s: Moment, now: int)
    requires Inv(s) && s.clock <= now <= CLOCK_MAX
    ensures Inv(Later(s, now))
  {
    hide TablesOk, DigestOf, Distinct;
  }

  /** The cache keeps its names, its digests and its lifetimes when a result is stored. */
  lemma CachedInv(pre: Moment, swept: Tables, post: Tables, tag: Tag, result: seq<byte>, now: int, ok: bool)
    requires Inv(pre) && pre.clock <= now <= CLOCK_MAX && Cached(pre.tables, swept, post, tag, result, now, ok)
    ensures Inv(pre.(tables := post, clock := now))
  {
    hide TransactionOk, Swept, DigestOf, TablesOk, Distinct, TextOk, OwnedByWindow, WorkerMatches, Remembers;
    if ResultOk(result, now) {
      SweepInv(pre, pre.(tables := swept, clock := now), now);
      if ok {
        StoredInv(pre.(tables := swept, clock := now), post, tag, result);
      }
    } else {
      LaterInv(pre, now);
    }
  }

  lemma StoredInv(s: Moment, post: Tables, tag: Tag, result: seq<byte>)
    requires Inv(s) && tag in s.tables.completed
    requires post == s.tables.(completed := s.tables.completed[tag := s.tables.completed[tag].(result := result, expires := s.clock + REPLAY_TTL)])
    ensures Inv(s.(tables := post))
  {
    hide TransactionOk, DigestOf, Distinct;
    MapPlusSize(s.tables.completed, tag, post.completed[tag]);
  }

  lemma PublishedInv(pre: Moment, post: Moment, peer: string, json: seq<byte>, ended: bool, now: int, noted: bool, resweep: Tables)
    requires Inv(pre) && pre.clock <= now <= CLOCK_MAX && Published(pre, post, peer, json, ended, now, noted, resweep)
    ensures Inv(post)
  {
    hide TablesOk, DigestOf, Distinct, Cached, Remembers;
    if Publishable(pre, peer, json) {
      CachedInv(pre, resweep, post.tables, pre.active.value, json, now, noted);
      RemembersSame(pre.(tables := post.tables, clock := now), post);
    } else {
      LaterInv(pre, now);
    }
  }

  lemma RemembersSame(s: Moment, t: Moment)
    requires Remembers(s) && s.tables == t.tables && s.window == t.window && s.clock == t.clock
    requires s.completions == t.completions
    ensures Remembers(t)
  {
  }

  lemma WithoutPeerInv(s: Moment, peer: string)
    requires Inv(s)
    ensures Inv(s.(tables := WithoutPeer(s.tables, peer)))
  {
    hide TransactionOk, DigestOf, Distinct;
    SubmapSize(WithoutPeer(s.tables, peer).incomplete, s.tables.incomplete);
    SubmapSize(WithoutPeer(s.tables, peer).expired, s.tables.expired);
  }

  // ---------------------------------------------------------------- a write

  /** What egp_protocol_accept may do to the tables, as far as ownership and the cache go. */
  ghost predicate AcceptEffect(pre: Tables, post: Tables, slot: Slot, now: int, reply: Reply) {
    && TablesOk(post)
    && (forall s <- post.incomplete :: s == slot || s in pre.incomplete)
    && (reply.Refused? ==> forall s <- post.incomplete :: s in pre.incomplete)
    && (forall t <- post.completed ::
          || (t in pre.completed && post.completed[t] == pre.completed[t])
          || (reply.Complete? && t == TagOf(reply.request)))
    && (forall t <- pre.completed :: t in post.completed || now >= pre.completed[t].expires
          || (reply.Complete? && |pre.completed| >= CACHE_LIMIT))
    && (reply.Complete? ==>
      && |reply.request.json| <= MAX_JSON && reply.request.slot == slot
      && (TagOf(reply.request) in pre.completed ==> now >= pre.completed[TagOf(reply.request)].expires)
      && TagOf(reply.request) in post.completed
      && post.completed[TagOf(reply.request)] == Completed(DigestOf(reply.request), [], now + REPLAY_TTL, now))
    && (!reply.Refused? ==> now > 0 && |slot.peer| < OWNER_CAP && slot.peer != "")
  }

  lemma InsertedEffect(before: map<Tag, Completed>, after: map<Tag, Completed>, r: Request, now: int)
    requires |r.json| <= MAX_JSON && Inserted(before, after, r, now) && TagOf(r) !in before
    ensures forall t <- after :: t == TagOf(r) || (t in before && after[t] == before[t])
    ensures |before| < CACHE_LIMIT ==> forall t <- before :: t in after
  {
    hide DigestOf;
    var rest := after - {TagOf(r)};
    assert forall t <- after :: t == TagOf(r) || (t in rest && rest[t] == after[t]);
  }

  lemma AcceptsEffect(pre: Tables, swept: Tables, post: Tables, slot: Slot, value: seq<byte>, now: int, reply: Reply)
    requires TablesOk(pre) && now <= CLOCK_MAX && Accepts(pre, swept, post, slot, value, now, reply)
    ensures AcceptEffect(pre, post, slot, now, reply)
  {
    WriteOk(pre, swept, post, slot, value, now, reply);
    hide TablesOk, Settled, Legal, Parse, Swept, Remembered, ObjectPath, DigestOf, AcceptEffect;
    if InputOk(slot.peer, now) && Parse(slot.characteristic, value).Good? {
      PathNotEmpty(slot.peer);
      var f := Parse(slot.characteristic, value).frame;
      if OwnTimeout(pre, slot, f, now) {
        RefusedEffect(pre, post, slot, now, reply);
      } else {
        SweptEffect(pre, swept, post, slot, f, now, reply);
      }
    } else {
      RefusedEffect(pre, post, slot, now, reply);
    }
  }

  lemma RefusedEffect(pre: Tables, post: Tables, slot: Slot, now: int, reply: Reply)
    requires TablesOk(post) && reply.Refused? && post.completed == pre.completed
    requires forall s <- post.incomplete :: s in pre.incomplete
    ensures AcceptEffect(pre, post, slot, now, reply)
  {
    hide TablesOk;
  }

  lemma SweptEffect(pre: Tables, swept: Tables, post: Tables, slot: Slot, f: Frame, now: int, reply: Reply)
    requires TablesOk(pre) && Swept(pre, swept, now) && TablesOk(swept) && TablesOk(post) && Legal(slot.characteristic, f)
    requires Settled(swept, post, slot, f, now, reply)
    requires |slot.peer| < OWNER_CAP && slot.peer != "" && now > 0
    ensures AcceptEffect(pre, post, slot, now, reply)
  {
    hide TablesOk, Settled, Legal, Marked, DigestOf, AcceptEffect;
    SubmapSize(swept.completed, pre.completed);
    SettledEffect(swept, post, slot, f, now, reply);
    assert forall t <- pre.completed :: t in swept.completed || now >= pre.completed[t].expires;
    EffectFrom(pre, swept, post, slot, now, reply);
  }

  lemma EffectFrom(pre: Tables, swept: Tables, post: Tables, slot: Slot, now: int, reply: Reply)
    requires TablesOk(post) && |slot.peer| < OWNER_CAP && slot.peer != "" && now > 0
    requires forall s <- swept.incomplete :: s in pre.incomplete
    requires Within(swept.completed, pre.completed) && |swept.completed| <= |pre.completed|
    requires forall t <- pre.completed :: t in swept.completed || now >= pre.completed[t].expires
    requires forall s <- post.incomplete :: s == slot || s in swept.incomplete
    requires reply.Refused? ==> forall s <- post.incomplete :: s in swept.incomplete
    requires !reply.Complete? ==> post.completed == swept.completed
    requires reply.Complete? ==>
              && |reply.request.json| <= MAX_JSON && reply.request.slot == slot && TagOf(reply.request) !in swept.completed
              && (forall t <- post.completed :: t == TagOf(reply.request) || (t in swept.completed && post.completed[t] == swept.completed[t]))
              && (|swept.completed| < CACHE_LIMIT ==> forall t <- swept.completed :: t in post.completed)
              && TagOf(reply.request) in post.completed
              && post.completed[TagOf(reply.request)] == Completed(DigestOf(reply.request), [], now + REPLAY_TTL, now)
    ensures AcceptEffect(pre, post, slot, now, reply)
  {
    hide TablesOk, DigestOf;
  }

  lemma PathNotEmpty(peer: string)
    requires ObjectPath(peer)
    ensures peer != ""
  {
  }

  lemma SettledEffect(swept: Tables, post: Tables, slot: Slot, f: Frame, now: int, reply: Reply)
    requires TablesOk(swept) && Legal(slot.characteristic, f) && Settled(swept, post, slot, f, now, reply)
    ensures forall s <- post.incomplete :: s == slot || s in swept.incomplete
    ensures reply.Refused? ==> forall s <- post.incomplete :: s in swept.incomplete
    ensures !reply.Complete? ==> post.completed == swept.completed
    ensures reply.Complete? ==>
              && |reply.request.json| <= MAX_JSON && reply.request.slot == slot && TagOf(reply.request) !in swept.completed
              && (forall t <- post.completed :: t == TagOf(reply.request) || (t in swept.completed && post.completed[t] == swept.completed[t]))
              && (|swept.completed| < CACHE_LIMIT ==> forall t <- swept.completed :: t in post.completed)
              && TagOf(reply.request) in post.completed
              && post.completed[TagOf(reply.request)] == Completed(DigestOf(reply.request), [], now + REPLAY_TTL, now)
  {
    hide Decide, Settled, TablesOk, Legal, Inserted, DigestOf;
    SettledParts(swept, post, slot, f, now, reply);
    DecideOk(swept, slot, f, now);
    if reply.Refused? {
      DecideRefused(swept, post, slot, f, now, reply.code);
    }
    if reply.Complete? {
      InsertedEffect(swept.completed, post.completed, reply.request, now);
      InsertedEntry(swept.completed, post.completed, reply.request, now);
    }
  }

  lemma InsertedEntry(before: map<Tag, Completed>, after: map<Tag, Completed>, r: Request, now: int)
    requires |r.json| <= MAX_JSON && Inserted(before, after, r, now)
    ensures TagOf(r) in after && after[TagOf(r)] == Completed(DigestOf(r), [], now + REPLAY_TTL, now)
  {
  }

  /** The tables after the protocol engine, under the window the sender may claim. */
  function Entered(pre: Moment, a: Attempt): Moment
    requires a.answer.Some?
  {
    pre.(tables := a.accepted, window := Claimed(pre.window, a.slot.peer, a.answer.value, true, a.authorized), clock := a.authorized)
  }

  lemma EnteredTables(pre: Moment, a: Attempt)
    requires Inv(pre) && Timed(pre, a) && LetIn(pre, a) && AcceptEffect(pre.tables, a.accepted, a.slot, a.received, a.reply)
    requires a.reply.Refused? || Judgement(pre, a).Allowed?
    ensures var s := if a.reply.Refused? then pre.(tables := a.accepted, clock := a.published) else Entered(pre, a);
      TablesOk(s.tables) && OwnedByWindow(s) && WorkerMatches(s)
  {
    hide TablesOk, DigestOf, Remembers, ObjectPath;
  }

  lemma {:induction false} FewNames(tags: set<Tag>, list: seq<Tag>)
    requires forall t <- tags :: t in list
    ensures |tags| <= |list|
  {
    if list != [] {
      var last := list[|list| - 1];
      FewNames(tags - {last}, list[..|list| - 1]);
      if last in tags {
        assert tags == (tags - {last}) + {last};
      } else {
        assert tags == tags - {last};
      }
    } else {
      assert tags == {};
    }
  }

  /** No cached result of a window that still admits frames has run out, nor been forgotten. */
  lemma StillCached(pre: Moment, now: int)
    requires Remembers(pre) && OpenAt(pre.window, now) && pre.clock <= now
    requires |pre.completions| <= CACHE_LIMIT
    ensures forall t <- pre.completions :: t in pre.tables.completed && now < pre.tables.completed[t].expires
    ensures |pre.tables.completed| <= |pre.completions|
  {
    hide Distinct;
    FewNames(pre.tables.completed.Keys, pre.completions);
  }

  /** The history once the engine has answered: a completed name is new. */
  lemma EnteredRemembers(pre: Moment, a: Attempt)
    requires Inv(pre) && Timed(pre, a) && a.answer.Some? && AcceptEffect(pre.tables, a.accepted, a.slot, a.received, a.reply)
    requires !a.reply.Refused? && Judgement(pre, a).Allowed?
    ensures var s := Entered(pre, a);
      Remembers(if a.reply.Complete? then s.(completions := s.completions + [TagOf(a.reply.request)]) else s)
  {
    hide TablesOk, DigestOf, ObjectPath, OwnedByWindow, WorkerMatches;
    assert OpenAt(pre.window, a.received) by { ReceivedOpen(pre, a); }
    if |pre.completions| <= CACHE_LIMIT {
      StillCached(pre, a.received);
    }
  }

  lemma ReceivedOpen(pre: Moment, a: Attempt)
    requires Timed(pre, a) && a.answer.Some? && AcceptEffect(pre.tables, a.accepted, a.slot, a.received, a.reply)
    requires !a.reply.Refused? && Judgement(pre, a).Allowed?
    ensures OpenAt(pre.window, a.received)
  {
  }

  lemma RefusedRemembers(pre: Moment, a: Attempt)
    requires Inv(pre) && Timed(pre, a) && AcceptEffect(pre.tables, a.accepted, a.slot, a.received, a.reply) && a.reply.Refused?
    ensures Remembers(pre.(tables := a.accepted, clock := a.published))
  {
    hide TablesOk, DigestOf, Distinct, OwnedByWindow, WorkerMatches;
  }

  lemma DenyInv(pre: Moment, a: Attempt)
    requires Inv(pre) && a.answer.Some? && Judgement(pre, a).Denied?
    ensures Inv(DenyStep(pre, a))
  {
    hide DigestOf, ObjectPath;
    var emptied := pre.(tables := EMPTY, completions := []);
    assert Inv(emptied);
    CloseInv(emptied);
  }

  lemma WriteInv(pre: Moment, post: Moment, a: Attempt)
    requires Inv(pre) && WriteStep(pre, post, a)
    ensures Inv(post)
  {
    hide TablesOk, Accepts, AcceptEffect, DigestOf, Distinct, ObjectPath, OwnedByWindow, WorkerMatches, Remembers, AdmitStep, DenyStep, Claimed, AuthorizeSensitive;
    if !LetIn(pre, a) {
      WithoutPeerInv(pre, a.slot.peer);
      LaterInv(pre, a.published);
      LaterInv(pre.(tables := WithoutPeer(pre.tables, a.slot.peer)), a.published);
    } else {
      AcceptsEffect(pre.tables, a.swept, a.accepted, a.slot, a.value, a.received, a.reply);
      if a.reply.Refused? {
        EnteredTables(pre, a);
        RefusedRemembers(pre, a);
      } else if Judgement(pre, a).Denied? {
        DenyInv(pre, a);
        DenyClock(pre, a);
        LaterInv(DenyStep(pre, a), a.published);
      } else {
        AdmitInv(pre, post, a);
      }
    }
  }

  lemma DenyClock(pre: Moment, a: Attempt)
    requires a.answer.Some? && Judgement(pre, a).Denied?
    ensures DenyStep(pre, a).clock == pre.clock
  {
  }

  lemma AdmitInv(pre: Moment, post: Moment, a: Attempt)
    requires Inv(pre) && Timed(pre, a) && LetIn(pre, a) && AcceptEffect(pre.tables, a.accepted, a.slot, a.received, a.reply)
    requires !a.reply.Refused? && Judgement(pre, a).Allowed? && AdmitStep(pre, post, a)
    ensures Inv(post)
  {
    hide TablesOk, DigestOf, Distinct, ObjectPath, Claimed, AuthorizeSensitive, Cached, AllowPairing;
    EnteredTables(pre, a);
    EnteredRemembers(pre, a);
    var s := Entered(pre, a);
    EnteredOwner(pre, a);
    match a.reply
    case Pending => LaterInv(s, a.published);
    case Replay(request, cached) =>
      var t := s.(resultPeer := a.slot.peer, lastResult := cached);
      RemembersSame(s, t);
      LaterInv(s, a.published);
      LaterInv(t, a.published);
    case Complete(request) =>
      hide Remembers, OwnedByWindow;
      CompleteInv(pre, post, a, request);
  }

  lemma EnteredOwner(pre: Moment, a: Attempt)
    requires Inv(pre) && LetIn(pre, a) && AcceptEffect(pre.tables, a.accepted, a.slot, a.received, a.reply)
    requires !a.reply.Refused? && Judgement(pre, a).Allowed?
    ensures Entered(pre, a).window.owner == a.slot.peer != ""
  {
    hide TablesOk, DigestOf, Distinct, ObjectPath;
  }

  lemma CompleteInv(pre: Moment, post: Moment, a: Attempt, request: Request)
    requires Inv(pre) && Timed(pre, a) && LetIn(pre, a) && AcceptEffect(pre.tables, a.accepted, a.slot, a.received, a.reply)
    requires a.reply == Complete(request) && Judgement(pre, a).Allowed? && AdmitStep(pre, post, a)
    ensures Inv(post)
  {
    hide TablesOk, DigestOf, Distinct, ObjectPath, Claimed, AuthorizeSensitive, Cached, AllowPairing, Remembers, Published;
    EnteredTables(pre, a);
    EnteredRemembers(pre, a);
    EnteredOwner(pre, a);
    var done := Entered(pre, a).(completions := pre.completions + [TagOf(request)]);
    if a.closing || a.notice == [] {
      LaterInv(done, a.published);
      RemembersSame(Later(done, a.published), Later(done, a.published).(active := None));
    } else {
      var busy := done.(active := Some(TagOf(request)),
                        job := Working(request, done.window.epoch, a.answer.value.connectionEpoch));
      RemembersSame(done, busy);
      PublishedClock(busy, pre.clock, post, a.slot.peer, a.notice, a.published, a.noted, a.resweep);
      PublishedInv(busy, post, a.slot.peer, a.notice, false, a.published, a.noted, a.resweep);
    }
  }

  /** The publication does not depend on the clock before it. */
  lemma PublishedClock(s: Moment, clock: int, post: Moment, peer: string, json: seq<byte>, now: int, noted: bool, resweep: Tables)
    requires Published(s.(clock := clock), post, peer, json, false, now, noted, resweep)
    ensures Published(s, post, peer, json, false, now, noted, resweep)
  {
    hide Cached;
  }

  /** Every event keeps the invariant. */
  lemma StepInv(e: Event, pre: Moment, post: Moment)
    requires Inv(pre) && Handles(e, pre, post)
    ensures Inv(post)
  {
    hide TablesOk, DigestOf, Distinct, ObjectPath, WriteStep, Published, OwnedByWindow, Remembers, WorkerMatches, Swept;
    match e
    case Press(now) => PressInv(pre, now);
    case Shut => CloseInv(pre);
    case Expiry(now) => ExpiryInv(pre, now);
    case BluezLost => GoneInv(pre);
    case Disconnected(peer) => WithoutPeerInv(pre, peer);
    case Sweep(now) => if now > 0 { SweepInv(pre, post, now); } else { LaterInv(pre, now); }
    case Written(a) => WriteInv(pre, post, a);
    case Reconcile => if pre.job.Idle? { JobInv(pre, Reconciling); }
    case Done(result, ended, now, noted, resweep) =>
      JobInv(pre, Idle);
      var free := pre.(job := Idle);
      if pre.job.Reconciling? {
        LaterInv(free, now);
      } else {
        PublishedInv(free, post, pre.job.request.slot.peer, result, ended, now, noted, resweep);
      }
  }

  lemma JobInv(s: Moment, job: Job)
    requires Inv(s) && !job.Working?
    ensures Inv(s.(job := job))
  {
    hide TablesOk, Distinct, DigestOf;
  }

  lemma PressInv(s: Moment, now: int)
    requires Inv(s) && s.clock <= now <= CLOCK_MAX
    ensures Inv(if now > 0 then Later(Cleared(s, Opened(s.window, now)), now) else Later(s, now))
  {
    hide DigestOf, Distinct, NextEpoch;
    LaterInv(s, now);
    if now > 0 {
      ClearedInv(Later(s, now), Opened(s.window, now));
    }
  }

  lemma ExpiryInv(s: Moment, now: int)
    requires Inv(s) && s.clock <= now <= CLOCK_MAX
    ensures Inv(if s.window.open && now >= s.window.deadline then Later(Cleared(s, Ticked(s.window, now)), now) else Later(s, now))
  {
    hide DigestOf, Distinct, NextEpoch;
    LaterInv(s, now);
    if s.window.open && now >= s.window.deadline {
      ClearedInv(Later(s, now), Ticked(s.window, now));
    }
  }

  lemma GoneInv(s: Moment)
    requires Inv(s)
    ensures Inv(Cleared(s, BluezGone(s.window)))
  {
    hide DigestOf, Distinct, NextEpoch;
    ClearedInv(s, BluezGone(s.window));
  }
}
