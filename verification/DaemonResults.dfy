/**
 What a client can read, and what a repeated request is answered with: over every run the last result
 published for it in the present window.
 */
module DaemonResults {
  import opened Bytes
  import opened ProtocolKeys
  import opened Frame
  import opened Reassembly
  import opened ReassemblyRuns
  import opened Security
  import opened DaemonModel
  import opened DaemonRuns
  import opened Wrappers

  /** A result and the peer that may read it. */
  datatype Said = Said(peer: string, bytes: seq<byte>)

  predicate Fits(bytes: seq<byte>) {
    0 < |bytes| <= 512
  }

  /** An accepted frame of a peer that is let in. */
  predicate Heard(s: Moment, e: DaemonModel.Event) {
    e.Written? && LetIn(s, e.attempt) && !e.attempt.reply.Refused? && Judgement(s, e.attempt).Allowed?
  }

  /** The worker's last word on the active request. */
  predicate Ends(s: Moment, e: DaemonModel.Event) {
    e.Done? && s.job.Working? && s.active == Some(DaemonModel.TagOf(s.job.request))
  }

  /** What an event gives its peer to read: the acknowledgement, the worker's result, or the cached one of a repetition. */
  function Says(s: Moment, e: DaemonModel.Event): Option<Said> {
    if Ends(s, e) && Fits(e.result) then Some(Said(s.job.request.slot.peer, e.result))
    else if Heard(s, e) && e.attempt.reply.Complete? && !e.attempt.closing && Fits(e.attempt.notice) then
      Some(Said(e.attempt.slot.peer, e.attempt.notice))
    else if Heard(s, e) && e.attempt.reply.Replay? && Fits(e.attempt.reply.cached) then
      Some(Said(e.attempt.slot.peer, e.attempt.reply.cached))
    else None
  }

  function Reads(s: Moment): Said {
    Said(s.resultPeer, s.lastResult)
  }

  ghost predicate Speaks(e: DaemonModel.Event, pre: Moment, post: Moment) {
    if post.window.epoch != pre.window.epoch then Reads(post) == Said("", [])
    else Reads(post) == if Says(pre, e).Some? then Says(pre, e).value else Reads(pre)
  }

  /** A published result, of whichever kind. */
  lemma PublishedReads(pre: Moment, post: Moment, peer: string, json: seq<byte>, ended: bool, now: int, noted: bool, resweep: Tables)
    requires Published(pre, post, peer, json, ended, now, noted, resweep)
    ensures var heard := pre.active.Some? && peer == pre.active.value.slot.peer && Fits(json);
      && Reads(post) == (if heard then Said(peer, json) else Reads(pre))
      && post.active == (if heard && ended then None else pre.active)
      && post.job == pre.job && post.window == pre.window
  {
    hide Cached;
  }

  /** The worker's result becomes readable for its requester, and ends its request if it says so. */
  lemma ResultIsReadable(e: DaemonModel.Event, pre: Moment, post: Moment)
    requires Inv(pre) && Handles(e, pre, post) && Ends(pre, e) && 0 < |e.result| <= 512
    ensures post.lastResult == e.result && post.resultPeer == pre.job.request.slot.peer
    ensures post.job.Idle? && (post.active.None? <==> e.ended) && (post.active.Some? ==> post.active == pre.active)
  {
    hide Cached, Inv;
    PublishedReads(pre.(job := Idle), post, pre.job.request.slot.peer, e.result, e.ended, e.now, e.noted, e.resweep);
  }

  /** ... and the answer to its repetition, if the cache still holds it. */
  lemma ResultIsCached(e: DaemonModel.Event, pre: Moment, post: Moment)
    requires Inv(pre) && Handles(e, pre, post) && Ends(pre, e) && 0 < |e.result| <= 512 && TextOk(e.result) && e.now > 0
    requires pre.active.value in pre.tables.completed && e.now < pre.tables.completed[pre.active.value].expires
    ensures var t := pre.active.value;
      t in post.tables.completed && post.tables.completed[t] == pre.tables.completed[t].(result := e.result, expires := e.now + REPLAY_TTL)
  {
    hide TablesOk, TextOk, OwnedByWindow, Remembers, DigestOf;
  }

  /** A request let through sets the worker on it and is acknowledged. */
  lemma RequestIsTaken(e: DaemonModel.Event, pre: Moment, post: Moment)
    requires Handles(e, pre, post) && Completes(pre, e) && !e.attempt.closing && 0 < |e.attempt.notice| <= 512
    requires e.attempt.reply.request.slot == e.attempt.slot
    ensures post.job == Job.Working(e.attempt.reply.request, pre.window.epoch, e.attempt.answer.value.connectionEpoch)
    ensures post.active == Some(Named(e)) && post.lastResult == e.attempt.notice && post.resultPeer == e.attempt.slot.peer
  {
    hide Accepts, Cached, AllowPairing, NextEpoch;
    AdmitBoundary(e, pre, post);
  }

  lemma HeardSpeaks(e: DaemonModel.Event, pre: Moment, post: Moment)
    requires Inv(pre) && e.Written? && WriteStep(pre, post, e.attempt) && Heard(pre, e)
    ensures Speaks(e, pre, post)
  {
    hide Accepts, Published, AllowPairing, AuthorizeSensitive, Claimed, Inv, AcceptEffect;
    var a := e.attempt;
    AdmitBoundary(e, pre, post);
    WriteAccepts(pre, post, a);
    if a.reply.Complete? && !a.closing && a.notice != [] {
      EffectSlot(pre.tables, a.accepted, a.slot, a.received, a.reply);
      var s := Entered(pre, a).(completions := pre.completions + [DaemonModel.TagOf(a.reply.request)], clock := pre.clock);
      PublishedReads(s.(active := Some(DaemonModel.TagOf(a.reply.request)),
                        job := Job.Working(a.reply.request, s.window.epoch, a.answer.value.connectionEpoch)),
                     post, a.slot.peer, a.notice, false, a.published, a.noted, a.resweep);
    }
  }

  lemma UnheardSpeaks(e: DaemonModel.Event, pre: Moment, post: Moment)
    requires Inv(pre) && e.Written? && WriteStep(pre, post, e.attempt) && !Heard(pre, e)
    ensures Speaks(e, pre, post)
  {
    hide Accepts, Published, AllowPairing, ObjectPath, NextEpoch, TablesOk, OwnedByWindow, Remembers;
  }

  /** Every event gives what it says, and keeps what was there if it says nothing. */
  lemma EventSpeaks(e: DaemonModel.Event, pre: Moment, post: Moment)
    requires Inv(pre) && Handles(e, pre, post)
    ensures Speaks(e, pre, post)
  {
    hide WriteStep, Published, Swept, LetIn, NextEpoch, TablesOk, OwnedByWindow, Remembers, AuthorizeSensitive;
    match e
    case Written(a) =>
      hide Inv, Speaks, Heard;
      if Heard(pre, e) {
        HeardSpeaks(e, pre, post);
      } else {
        UnheardSpeaks(e, pre, post);
      }
    case Done(result, ended, now, noted, resweep) =>
      if pre.job.Working? {
        PublishedReads(pre.(job := Idle), post, pre.job.request.slot.peer, result, ended, now, noted, resweep);
      }
    case _ =>
  }

  /** The last thing said since the window epoch last moved. */
  function LastSaid(states: seq<Moment>, events: seq<DaemonModel.Event>, k: nat): Said
    requires |states| == |events| + 1 && k <= |events|
  {
    if k == 0 || states[k].window.epoch != states[k - 1].window.epoch then Said("", [])
    else if Says(states[k - 1], events[k - 1]).Some? then Says(states[k - 1], events[k - 1]).value
    else LastSaid(states, events, k - 1)
  }

  /** Over every run: what can be read is the last acknowledgement, result or repetition of the present window. */
  lemma {:induction false} ReadableIsLastSaid(states: seq<Moment>, events: seq<DaemonModel.Event>, k: nat)
    requires DaemonRun(states, events) && k <= |events|
    ensures Reads(states[k]) == LastSaid(states, events, k)
  {
    hide Handles, Inv, Says;
    if k > 0 {
      ReadableIsLastSaid(states, events, k - 1);
      AlwaysInv(states, events, k - 1);
      assert StepsAt(states, events, k - 1);
      EventSpeaks(events[k - 1], states[k - 1], states[k]);
    }
  }

  /**
   Over every run: a peer reads exactly the last thing said in the present window, and reads it exactly if
   it was said to that peer, which is connected, bonded and encrypted, before the window's deadline.
   */
  lemma ClientReads(states: seq<Moment>, events: seq<DaemonModel.Event>, k: nat, peer: string, p: PeerSecurity, now: int, bytes: seq<byte>)
    requires DaemonRun(states, events) && k <= |events|
    ensures Readable(states[k], peer, Some(p), now) == Some(bytes) <==>
            && LastSaid(states, events, k) == Said(peer, bytes) && bytes != [] && ObjectPath(peer)
            && p.connected && p.paired && p.bonded && p.stableIdentity && p.encrypted
            && states[k].window.open && 0 < now < states[k].window.deadline
  {
    RunLength(states, events);
    hide DaemonRun, LastSaid, TablesOk, DigestOf, Remembers, WorkerMatches, ObjectPath;
    ReadableIsLastSaid(states, events, k);
    AlwaysInv(states, events, k);
  }

  lemma RunLength(states: seq<Moment>, events: seq<DaemonModel.Event>)
    requires DaemonRun(states, events)
    ensures |states| == |events| + 1
  {
  }

  // ---------------------------------------------------------------- what a repetition is answered with

  /** The request last let through under a name, and the result last stored for it. */
  datatype Known = Known(request: Request, bytes: seq<byte>)

  /** The acknowledgement, if it could be stored. */
  function Acknowledged(a: Attempt): seq<byte> {
    if !a.closing && Fits(a.notice) && ResultOk(a.notice, a.published) then a.notice else []
  }

  predicate Stores(s: Moment, e: DaemonModel.Event, tag: Tag) {
    Ends(s, e) && s.active.value == tag && Fits(e.result) && ResultOk(e.result, e.now)
  }

  function LastKnown(states: seq<Moment>, events: seq<DaemonModel.Event>, k: nat, tag: Tag): Option<Known>
    requires |states| == |events| + 1 && k <= |events|
  {
    if k == 0 then None
    else
      var s, e, known := states[k - 1], events[k - 1], LastKnown(states, events, k - 1, tag);
      if Completes(s, e) && Named(e) == tag then Some(Known(e.attempt.reply.request, Acknowledged(e.attempt)))
      else if Stores(s, e, tag) && known.Some? then Some(known.value.(bytes := e.result))
      else known
  }

  /** The cache entry is of that request and holds those bytes. */
  predicate Holds(c: Completed, known: Known) {
    |known.request.json| <= MAX_JSON && c.digest == DigestOf(known.request) && c.result == known.bytes
  }

  /** What one event does to the entry of a name, if there is one afterwards. */
  ghost predicate EntryFollows(e: DaemonModel.Event, pre: Moment, post: Moment, tag: Tag) {
    tag in post.tables.completed ==>
      var c := post.tables.completed[tag];
      if Completes(pre, e) && Named(e) == tag then Holds(c, Known(e.attempt.reply.request, Acknowledged(e.attempt)))
      else
        && tag in pre.tables.completed && c.digest == pre.tables.completed[tag].digest
        && c.result == if Stores(pre, e, tag) then e.result else pre.tables.completed[tag].result
  }

  lemma CachedEntries(pre: Tables, swept: Tables, post: Tables, tag: Tag, result: seq<byte>, now: int, ok: bool, t: Tag)
    requires Cached(pre, swept, post, tag, result, now, ok) && t in post.completed
    ensures t in pre.completed && post.completed[t].digest == pre.completed[t].digest
    ensures post.completed[t].result == if t == tag && ResultOk(result, now) then result else pre.completed[t].result
  {
    hide TextOk;
  }

  lemma PublishedEntries(pre: Moment, post: Moment, peer: string, json: seq<byte>, ended: bool, now: int, noted: bool, resweep: Tables, t: Tag)
    requires Published(pre, post, peer, json, ended, now, noted, resweep) && t in post.tables.completed
    ensures t in pre.tables.completed && post.tables.completed[t].digest == pre.tables.completed[t].digest
    ensures post.tables.completed[t].result ==
            if pre.active == Some(t) && peer == t.slot.peer && Fits(json) && ResultOk(json, now) then json else pre.tables.completed[t].result
  {
    hide Cached, TextOk;
    if Publishable(pre, peer, json) {
      CachedEntries(pre.tables, resweep, post.tables, pre.active.value, json, now, noted, t);
    }
  }

  /** What the engine leaves of the entry of a name. */
  lemma AcceptEntries(pre: Tables, post: Tables, slot: Slot, now: int, reply: Reply, t: Tag)
    requires AcceptEffect(pre, post, slot, now, reply) && t in post.completed
    ensures if reply.Complete? && DaemonModel.TagOf(reply.request) == t then
              |reply.request.json| <= MAX_JSON && post.completed[t].digest == DigestOf(reply.request) && post.completed[t].result == []
            else t in pre.completed && post.completed[t] == pre.completed[t]
  {
    hide TablesOk, DigestOf;
  }

  lemma HeardEntry(e: DaemonModel.Event, pre: Moment, post: Moment, tag: Tag)
    requires Inv(pre) && e.Written? && WriteStep(pre, post, e.attempt) && Heard(pre, e)
    ensures EntryFollows(e, pre, post, tag)
  {
    hide Accepts, Published, AllowPairing, AuthorizeSensitive, Claimed, Inv, AcceptEffect, TextOk, DigestOf;
    var a := e.attempt;
    WriteAccepts(pre, post, a);
    NotEnding(pre, e, tag);
    if tag in post.tables.completed {
      if a.reply.Complete? && !a.closing && a.notice != [] {
        EffectSlot(pre.tables, a.accepted, a.slot, a.received, a.reply);
        var s := Entered(pre, a).(completions := pre.completions + [DaemonModel.TagOf(a.reply.request)], clock := pre.clock);
        PublishedEntries(s.(active := Some(DaemonModel.TagOf(a.reply.request)),
                            job := Job.Working(a.reply.request, s.window.epoch, a.answer.value.connectionEpoch)),
                         post, a.slot.peer, a.notice, false, a.published, a.noted, a.resweep, tag);
      }
      AcceptEntries(pre.tables, a.accepted, a.slot, a.received, a.reply, tag);
    }
  }

  lemma NotEnding(s: Moment, e: DaemonModel.Event, tag: Tag)
    requires e.Written?
    ensures !Stores(s, e, tag)
  {
  }

  lemma UnheardEntry(e: DaemonModel.Event, pre: Moment, post: Moment, tag: Tag)
    requires Inv(pre) && e.Written? && WriteStep(pre, post, e.attempt) && !Heard(pre, e)
    ensures EntryFollows(e, pre, post, tag)
  {
    hide Accepts, Published, AllowPairing, ObjectPath, NextEpoch, Inv, AcceptEffect, DigestOf, TextOk;
    NotEnding(pre, e, tag);
    if LetIn(pre, e.attempt) {
      WriteAccepts(pre, post, e.attempt);
      if e.attempt.reply.Refused? && tag in post.tables.completed {
        AcceptEntries(pre.tables, e.attempt.accepted, e.attempt.slot, e.attempt.received, e.attempt.reply, tag);
      }
    }
  }

  lemma EventEntry(e: DaemonModel.Event, pre: Moment, post: Moment, tag: Tag)
    requires Inv(pre) && Handles(e, pre, post)
    ensures EntryFollows(e, pre, post, tag)
  {
    hide WriteStep, Published, LetIn, NextEpoch, TablesOk, OwnedByWindow, Remembers, AuthorizeSensitive, DigestOf, TextOk, Marked;
    match e
    case Written(a) =>
      hide Inv, EntryFollows, Heard;
      if Heard(pre, e) {
        HeardEntry(e, pre, post, tag);
      } else {
        UnheardEntry(e, pre, post, tag);
      }
    case Done(result, ended, now, noted, resweep) =>
      if pre.job.Working? && tag in post.tables.completed {
        PublishedEntries(pre.(job := Idle), post, pre.job.request.slot.peer, result, ended, now, noted, resweep, tag);
      }
    case _ =>
  }

  /** Over every run: a cache entry is of the request last let through under its name, with the result last stored for it. */
  lemma {:induction false} CacheIsLastKnown(states: seq<Moment>, events: seq<DaemonModel.Event>, k: nat, tag: Tag)
    requires DaemonRun(states, events) && k <= |events| && tag in states[k].tables.completed
    ensures LastKnown(states, events, k, tag).Some?
    ensures Holds(states[k].tables.completed[tag], LastKnown(states, events, k, tag).value)
  {
    hide Handles, Inv, Stores, Completes, Acknowledged, DigestOf;
    if k > 0 {
      AlwaysInv(states, events, k - 1);
      assert StepsAt(states, events, k - 1);
      EventEntry(events[k - 1], states[k - 1], states[k], tag);
      if tag in states[k - 1].tables.completed {
        CacheIsLastKnown(states, events, k - 1, tag);
      }
    }
  }

  lemma DecideReplays(swept: Tables, slot: Slot, f: Frame, now: int)
    requires TablesOk(swept) && Legal(slot.characteristic, f) && Decide(swept, slot, f, now).reply.Replay?
    ensures var reply := Decide(swept, slot, f, now).reply;
      var t := DaemonModel.TagOf(reply.request);
      && reply.request.slot == slot && |reply.request.json| <= MAX_JSON
      && t in swept.completed && swept.completed[t].digest == DigestOf(reply.request) && swept.completed[t].result == reply.cached
  {
    hide DigestOf, TextOk, Marks, Nonzero;
    FreshOk(f, now);
    var t := if slot in swept.incomplete then swept.incomplete[slot] else Fresh(f, now);
    if t.total == f.total {
      AbsorbedOk(t, f.offset, f.payload);
    }
  }

  lemma ReplayedEntry(pre: Tables, swept: Tables, post: Tables, slot: Slot, value: seq<byte>, now: int, reply: Reply)
    requires TablesOk(pre) && Accepts(pre, swept, post, slot, value, now, reply) && reply.Replay?
    ensures reply.request.slot == slot && ObjectPath(slot.peer) && |reply.request.json| <= MAX_JSON
    ensures var t := DaemonModel.TagOf(reply.request);
      t in pre.completed && pre.completed[t].digest == DigestOf(reply.request) && pre.completed[t].result == reply.cached
  {
    hide DigestOf, ObjectPath, Parse, TablesOk, Legal, Decide, Remembered, Marked;
    var f := Parse(slot.characteristic, value).frame;
    DecideReplays(swept, slot, f, now);
  }

  /**
   Over every run: what is answered as a repetition is the very request last let through under its
   name, and the answer is the result last stored for that.
   */
  lemma RepetitionGetsItsResult(states: seq<Moment>, events: seq<DaemonModel.Event>, k: nat)
    requires DaemonRun(states, events) && k < |events| && events[k].Written?
    requires LetIn(states[k], events[k].attempt) && events[k].attempt.reply.Replay?
    ensures var reply := events[k].attempt.reply;
      var known := LastKnown(states, events, k, DaemonModel.TagOf(reply.request));
      known == Some(Known(reply.request, reply.cached))
  {
    hide Handles, Inv, LetIn, DigestOf, TablesOk, Accepts;
    AlwaysInv(states, events, k);
    assert StepsAt(states, events, k);
    var s, a := states[k], events[k].attempt;
    InvTables(s);
    EngineAnswers(states[k], states[k + 1], a);
    ReplayedEntry(s.tables, a.swept, a.accepted, a.slot, a.value, a.received, a.reply);
    var tag := DaemonModel.TagOf(a.reply.request);
    CacheIsLastKnown(states, events, k, tag);
    var known := LastKnown(states, events, k, tag).value;
    KnownNamed(states, events, k, tag);
    SameRequest(a.reply.request, known.request);
  }

  lemma InvTables(s: Moment)
    requires Inv(s)
    ensures TablesOk(s.tables)
  {
  }

  lemma EngineAnswers(pre: Moment, post: Moment, a: Attempt)
    requires Handles(Written(a), pre, post) && LetIn(pre, a)
    ensures Accepts(pre.tables, a.swept, a.accepted, a.slot, a.value, a.received, a.reply)
  {
    hide Accepts, AdmitStep, DenyStep, LetIn, AuthorizeSensitive;
  }

  lemma {:induction false} KnownNamed(states: seq<Moment>, events: seq<DaemonModel.Event>, k: nat, tag: Tag)
    requires |states| == |events| + 1 && k <= |events|
    ensures var known := LastKnown(states, events, k, tag); known.Some? ==> DaemonModel.TagOf(known.value.request) == tag
  {
    hide Completes, Stores, Acknowledged;
    if k > 0 {
      KnownNamed(states, events, k - 1, tag);
      CompletesNamed(states[k - 1], events[k - 1]);
    }
  }

  lemma CompletesNamed(s: Moment, e: DaemonModel.Event)
    ensures Completes(s, e) ==> e.Written? && e.attempt.reply.Complete? && Named(e) == DaemonModel.TagOf(e.attempt.reply.request)
  {
    hide LetIn, AuthorizeSensitive;
  }

  lemma SameRequest(r: Request, q: Request)
    requires |r.json| <= MAX_JSON && |q.json| <= MAX_JSON && DigestOf(r) == DigestOf(q)
    requires DaemonModel.TagOf(r) == DaemonModel.TagOf(q) && ObjectPath(r.slot.peer)
    ensures r == q
  {
    hide RequestDigest, ObjectPath;
    RequestDigestInjective(r.slot.peer, r.slot.characteristic, r.opcode, r.json, q.slot.peer, q.slot.characteristic, q.opcode, q.json);
  }
}
