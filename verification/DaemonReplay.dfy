/**
 When a request can be carried out a second time under one press of the button: exactly when the
 replay cache has lost its name, which takes a drop, or more than 64 requests.
 */
module DaemonReplay {
  import opened Bytes
  import opened ProtocolKeys
  import opened Frame
  import opened Reassembly
  import opened ReassemblyRuns
  import opened HonestSender
  import opened Security
  import opened DaemonModel
  import opened DaemonRuns
  import opened Wrappers
  import Utf8

  // ---------------------------------------------------------------- one write

  /** The whole message in one frame. */
  function WholeFrame(m: Message): Frame {
    Frame(m.id, m.opcode, true, true, |m.text|, 0, m.text)
  }

  /** The name of the message, if it is cached, is cached for the message. */
  ghost predicate DigestFits(t: Tables, m: Message)
    requires |m.text| <= MAX_JSON
  {
    HonestSender.TagOf(m) in t.completed ==> t.completed[HonestSender.TagOf(m)].digest == DigestOf(RequestOf(m))
  }

  predicate Delivered(reply: Reply, m: Message) {
    (reply.Complete? || reply.Replay?) && reply.request == RequestOf(m)
  }

  /** Nothing in progress, and no timeout held against the message. */
  ghost predicate Clear(t: Tables, m: Message)
    requires |m.text| <= MAX_JSON
  {
    TablesOk(t) && t.incomplete == map[] && HonestSender.TagOf(m) !in t.expired && DigestFits(t, m)
  }

  lemma WholeDecided(t: Tables, m: Message, now: int)
    requires Sendable(m) && Clear(t, m)
    ensures FrameOf(m, WholeFrame(m))
    ensures var d := Decide(t, m.slot, WholeFrame(m), now);
      d.slot.None? && Delivered(d.reply, m) && (d.reply.Complete? <==> HonestSender.TagOf(m) !in t.completed)
  {
    hide Merge, TextOk, Utf8.Valid, DigestOf, ObjectPath, Nonzero;
    var f := WholeFrame(m);
    assert m.text[0..|m.text|] == m.text;
    var whole := [] + [Slice(0, m.text)];
    forall i | 0 <= i < |m.text| ensures Covered(whole, i) {
      assert whole[0] in whole && Covers(whole[0], i);
    }
    DecideOwn(t, m, [], now, f, now);
    DecideOk(t, m.slot, f, now);
    FreshOk(f, now);
    MergeRefuses(t.completed, m.slot, Fresh(f, now), f, now);
  }

  /** A sweep of tables with nothing in progress. */
  function Aged(t: Tables, now: int): Tables {
    Tables(map[], map g | g in t.completed && now < t.completed[g].expires :: t.completed[g], Unelapsed(t.expired, now))
  }

  lemma AgedSwept(t: Tables, now: int)
    requires TablesOk(t) && t.incomplete == map[]
    ensures Swept(t, Aged(t, now), now) && TablesOk(Aged(t, now))
    ensures Aged(t, now).expired.Keys <= t.expired.Keys
  {
    assert Marked(t.expired, map[], {}, now) == t.expired;
    SubmapSize(Aged(t, now).completed, t.completed);
    SubmapSize(Aged(t, now).expired, t.expired);
  }

  lemma {:induction false} OldestExists(m: map<Tag, Completed>) returns (oldest: Tag)
    requires m != map[]
    ensures oldest in m && forall t <- m :: m[oldest].completedAt <= m[t].completedAt
    decreases |m|
  {
    oldest :| oldest in m;
    var rest := m - {oldest};
    assert m.Keys == rest.Keys + {oldest};
    if rest != map[] {
      var other := OldestExists(rest);
      assert forall t <- m :: t == oldest || (t in rest && rest[t] == m[t]);
      if m[other].completedAt < m[oldest].completedAt {
        oldest := other;
      }
    }
  }

  lemma InsertExists(before: map<Tag, Completed>, r: Request, now: int) returns (after: map<Tag, Completed>)
    requires |r.json| <= MAX_JSON && DaemonModel.TagOf(r) !in before
    ensures Inserted(before, after, r, now)
  {
    hide DigestOf;
    var tag, entry := DaemonModel.TagOf(r), Completed(DigestOf(r), [], now + REPLAY_TTL, now);
    if |before| < CACHE_LIMIT {
      after := before[tag := entry];
      assert after - {tag} == before;
    } else {
      var oldest := OldestExists(before);
      after := (before - {oldest})[tag := entry];
      assert after - {tag} == before - {oldest};
    }
  }

  /** The frame of the whole message is always delivered; it completes exactly if the cache does not know its name. */
  lemma WholeAccepted(t: Tables, m: Message, now: int) returns (reply: Reply, post: Tables)
    requires Sendable(m) && Clear(t, m) && 0 < now <= CLOCK_MAX
    ensures Accepts(t, Aged(t, now), post, m.slot, Encode(WholeFrame(m)), now, reply)
    ensures Delivered(reply, m) && (reply.Complete? <==> HonestSender.TagOf(m) !in Aged(t, now).completed)
    ensures TablesOk(post) && post.incomplete == map[] && post.expired == Aged(t, now).expired
  {
    hide Decide, TextOk, DigestOf, ObjectPath, Nonzero, Legal, Inserted, Swept, TablesOk, Settled, Parse;
    var swept, f := Aged(t, now), WholeFrame(m);
    AgedSwept(t, now);
    WholeDecided(swept, m, now);
    ParseOfEncode(m.slot.characteristic, f);
    reply := Decide(swept, m.slot, f, now).reply;
    post := WholeSettled(swept, m, now);
    WriteOk(t, swept, post, m.slot, Encode(f), now, reply);
  }

  lemma WholeSettled(swept: Tables, m: Message, now: int) returns (post: Tables)
    requires Sendable(m) && Clear(swept, m)
    ensures Legal(m.slot.characteristic, WholeFrame(m))
    ensures Settled(swept, post, m.slot, WholeFrame(m), now, Decide(swept, m.slot, WholeFrame(m), now).reply)
    ensures post.incomplete == map[] && post.expired == swept.expired
  {
    hide Decide, TextOk, DigestOf, ObjectPath, Nonzero, Inserted, TablesOk;
    WholeDecided(swept, m, now);
    post := swept;
    if HonestSender.TagOf(m) !in swept.completed {
      var completed := InsertExists(swept.completed, RequestOf(m), now);
      post := swept.(completed := completed);
    }
    assert swept.incomplete - {m.slot} == map[];
  }

  /** The worker is idle, the clock at `now`, and the window open to the peer. */
  predicate Admits(s: Moment, peer: string, now: int) {
    s.job.Idle? && s.clock <= now <= CLOCK_MAX && OpenAt(s.window, now) && (s.window.owner == "" || s.window.owner == peer)
  }

  const SENDER := PeerSecurity(true, true, true, true, true, 1)
  const NOTICE: seq<byte> := [0x78]

  lemma NoticeOk()
    ensures TextOk(NOTICE) && 0 < |NOTICE| <= RESULT_MAX
  {
    assert Utf8.Width(NOTICE) == 1 && NOTICE[1..] == [];
  }

  /** A published result is cached, if its entry is still there. */
  lemma PublishExists(s: Moment, ended: bool, now: int) returns (post: Moment, noted: bool, resweep: Tables)
    requires TablesOk(s.tables) && s.tables.incomplete == map[] && s.active.Some? && 0 < now
    ensures Published(s, post, s.active.value.slot.peer, NOTICE, ended, now, noted, resweep)
    ensures post.tables.incomplete == map[] && post.tables.expired.Keys <= s.tables.expired.Keys
    ensures post.job == s.job && post.window == s.window && post.clock == now && post.completions == s.completions
    ensures post.active == if ended then None else s.active
    ensures forall t <- post.tables.completed :: t in s.tables.completed && post.tables.completed[t].digest == s.tables.completed[t].digest
  {
    hide Swept, TablesOk, TextOk;
    AgedSwept(s.tables, now);
    NoticeOk();
    resweep := Aged(s.tables, now);
    var tag := s.active.value;
    noted := tag in resweep.completed;
    var tables := if noted then resweep.(completed := resweep.completed[tag := resweep.completed[tag].(result := NOTICE, expires := now + REPLAY_TTL)])
                  else resweep;
    post := s.(tables := tables, resultPeer := tag.slot.peer, lastResult := NOTICE, clock := now, active := if ended then None else s.active);
  }

  /** The message in one frame, at `now` from one end of the call to the other. */
  function Sent(m: Message, now: int, connected: bool, reply: Reply, before: Tables, after: Tables): Attempt
    requires Sendable(m)
  {
    Attempt(m.slot, Encode(WholeFrame(m)), Some(SENDER.(connected := connected)), true,
            now, now, now, now, reply, Aged(before, now), after, false, NOTICE, false, after)
  }

  /** A connected sender of a message the cache does not know sets the worker to work. */
  lemma WholeRuns(s: Moment, m: Message, now: int) returns (a: Attempt, post: Moment)
    requires Inv(s) && Sendable(m) && Admits(s, m.slot.peer, now) && Clear(s.tables, m) && HonestSender.TagOf(m) !in s.tables.completed
    ensures WriteStep(s, post, a) && Completes(s, Written(a)) && Named(Written(a)) == HonestSender.TagOf(m)
    ensures post.job == Job.Working(RequestOf(m), s.window.epoch, 1) && post.window == s.window.(owner := m.slot.peer) && post.clock == now
    ensures post.tables.incomplete == map[] && HonestSender.TagOf(m) !in post.tables.expired
    ensures post.completions == s.completions + [HonestSender.TagOf(m)] && post.active == Some(HonestSender.TagOf(m))
  {
    hide DigestOf, Accepts, ObjectPath, Nonzero, TextOk, Published, TablesOk, Inv;
    PathNotEmpty(m.slot.peer);
    NoticeOk();
    InvTables(s);
    AgedSwept(s.tables, now);
    var reply, after := WholeAccepted(s.tables, m, now);
    var window := s.window.(owner := m.slot.peer);
    var busy := s.(tables := after, window := window, completions := s.completions + [HonestSender.TagOf(m)],
                   active := Some(HonestSender.TagOf(m)), job := Job.Working(RequestOf(m), s.window.epoch, 1));
    var noted, resweep;
    post, noted, resweep := PublishExists(busy, false, now);
    a := Sent(m, now, true, reply, s.tables, after).(noted := noted, resweep := resweep);
    assert Entered(s, a).window == window;
  }

  lemma InvTables(s: Moment)
    requires Inv(s)
    ensures TablesOk(s.tables)
  {
  }

  /** A sender that BlueZ has lost makes the daemon forget, whatever its message was. */
  lemma WholeDrops(s: Moment, m: Message, now: int) returns (a: Attempt)
    requires Inv(s) && Sendable(m) && Admits(s, m.slot.peer, now) && Clear(s.tables, m)
    ensures WriteStep(s, s.(tables := EMPTY, completions := [], clock := now), a) && Drops(s, Written(a))
  {
    hide DigestOf, Accepts, ObjectPath, Nonzero, TextOk, TablesOk, Inv;
    var reply, after := WholeAccepted(s.tables, m, now);
    a := Sent(m, now, false, reply, s.tables, after);
  }

  /** The daemon after its peer has disconnected. */
  function Parted(s: Moment, peer: string): Moment {
    s.(tables := WithoutPeer(s.tables, peer))
  }

  /** Once its sender has reconnected, one write can put the worker on a request of this name. */
  ghost predicate RunsAgain(s: Moment, tag: Tag) {
    exists post, a :: WriteStep(Parted(s, tag.slot.peer), post, a) && post.job.Working? && DaemonModel.TagOf(post.job.request) == tag
  }

  lemma PartedClear(s: Moment, m: Message)
    requires Inv(s) && |m.text| <= MAX_JSON && (s.window.owner == "" || s.window.owner == m.slot.peer) && DigestFits(s.tables, m)
    ensures Inv(Parted(s, m.slot.peer)) && Clear(Parted(s, m.slot.peer).tables, m)
  {
    hide TransactionOk, DigestOf, Distinct, WorkerMatches, Remembers;
    WithoutPeerInv(s, m.slot.peer);
  }

  /** A message can be carried out in this window exactly if the replay cache does not hold its name. */
  lemma RunsAgainExactly(s: Moment, m: Message, now: int)
    requires Inv(s) && Sendable(m) && Admits(s, m.slot.peer, now)
    ensures RunsAgain(s, HonestSender.TagOf(m)) <==> HonestSender.TagOf(m) !in s.tables.completed
  {
    hide WriteStep, Inv, DigestOf, TablesOk, ObjectPath, Nonzero, TextOk, LetIn, Admits;
    var tag, gap := HonestSender.TagOf(m), Parted(s, m.slot.peer);
    WithoutPeerInv(s, m.slot.peer);
    if tag !in s.tables.completed {
      InvParts(s, m, now);
      PartedClear(s, m);
      var a, post := WholeRuns(gap, m, now);
    } else {
      forall post, a | WriteStep(gap, post, a) && post.job.Working? ensures DaemonModel.TagOf(post.job.request) != tag {
        assert gap.job.Idle? by { InvParts(s, m, now); }
        WriteIsStep(Written(a), gap, post);
        DispatchIsACompletion(Written(a), gap, post);
        CompletesUnknown(Written(a), gap, post);
      }
    }
  }

  lemma InvParts(s: Moment, m: Message, now: int)
    requires Sendable(m) && Admits(s, m.slot.peer, now)
    ensures |m.text| <= MAX_JSON && s.job.Idle? && (s.window.owner == "" || s.window.owner == m.slot.peer)
    ensures Admits(Parted(s, m.slot.peer), m.slot.peer, now)
  {
  }

  lemma WriteIsStep(e: DaemonModel.Event, pre: Moment, post: Moment)
    requires e.Written? && WriteStep(pre, post, e.attempt)
    ensures Handles(e, pre, post)
  {
    hide WriteStep;
  }

  // ---------------------------------------------------------------- over runs

  /** The owner of a window that lets a request through keeps it as long as the epoch stands. */
  lemma {:induction false} OwnerStays(states: seq<Moment>, events: seq<DaemonModel.Event>, i: nat, k: nat)
    requires DaemonRun(states, events) && i < k <= |events| && Completes(states[i], events[i]) && SameWindow(states, i, k)
    ensures states[k].window.owner == Named(events[i]).slot.peer != ""
  {
    hide Handles, Inv, LetIn, Drops;
    assert StepsAt(states, events, k - 1);
    AlwaysInv(states, events, k - 1);
    if k == i + 1 {
      CompletingStep(events[i], states[i], states[k]);
    } else {
      assert SameWindow(states, i, k - 1);
      OwnerStays(states, events, i, k - 1);
      EpochBoundary(events[k - 1], states[k - 1], states[k]);
    }
  }

  /** None of the events from `d` up to state `k` completes the name. */
  ghost predicate Quiet(states: seq<Moment>, events: seq<DaemonModel.Event>, d: nat, k: nat, tag: Tag)
    requires |states| == |events| + 1 && k <= |events|
  {
    forall l :: d <= l < k ==> !(Completes(states[l], events[l]) && Named(events[l]) == tag)
  }

  /** A drop has followed event `i`, and after it the name has not completed again. */
  ghost predicate DroppedSince(states: seq<Moment>, events: seq<DaemonModel.Event>, i: nat, k: nat, tag: Tag)
    requires |states| == |events| + 1 && i < k <= |events|
  {
    exists d: nat :: i < d < k && Drops(states[d], events[d]) && Quiet(states, events, d, k, tag)
  }

  lemma {:induction false} LastDrop(states: seq<Moment>, events: seq<DaemonModel.Event>, i: nat, k: nat) returns (d: nat)
    requires |states| == |events| + 1 && i < k <= |events|
    ensures i <= d < k && (d > i ==> Drops(states[d], events[d]))
    ensures forall l :: d < l < k ==> !Drops(states[l], events[l])
    decreases k
  {
    hide Drops;
    if k == i + 1 || Drops(states[k - 1], events[k - 1]) {
      d := k - 1;
    } else {
      d := LastDrop(states, events, i, k - 1);
    }
  }

  /** A name that has completed in this window is off the list exactly after a drop. */
  lemma ForgottenExactly(states: seq<Moment>, events: seq<DaemonModel.Event>, i: nat, k: nat, tag: Tag)
    requires DaemonRun(states, events) && i < k <= |events|
    requires Completes(states[i], events[i]) && Named(events[i]) == tag && SameWindow(states, i, k)
    ensures tag !in states[k].completions <==> DroppedSince(states, events, i, k, tag)
  {
    hide LetIn, Inv, AuthorizeSensitive;
    ListedExactly(states, events, k, tag);
    var d := LastDrop(states, events, i, k);
    if tag in states[k].completions {
      var j: nat :| j < k && Lasting(states, events, j, k, tag);
      forall e: nat | i < e < k && Drops(states[e], events[e]) ensures !Quiet(states, events, e, k, tag) {
        NotBoth(states[j], events[j]);
        assert e <= j;
      }
    } else {
      forall l | d <= l < k && Completes(states[l], events[l]) ensures Named(events[l]) != tag {
        assert Lasting(states, events, l, k, Named(events[l]));
      }
      assert Quiet(states, events, d, k, tag);
    }
  }

  lemma NotBoth(s: Moment, e: DaemonModel.Event)
    ensures !(Completes(s, e) && Drops(s, e))
  {
    hide LetIn;
  }

  lemma ListedIsCached(s: Moment, tag: Tag, now: int)
    requires Inv(s) && OpenAt(s.window, now) && s.clock <= now && |s.completions| <= CACHE_LIMIT
    ensures tag in s.tables.completed <==> tag in s.completions
  {
    hide TablesOk, Distinct, DigestOf, OwnedByWindow, WorkerMatches;
    StillCached(s, now);
  }

  /**
   A request that has completed under the present press of the button can be carried out once more
   exactly if it is not in the replay cache; up to 64 requests, exactly after a drop.
   */
  lemma AgainExactlyAfterDrop(states: seq<Moment>, events: seq<DaemonModel.Event>, i: nat, k: nat, m: Message, now: int)
    requires DaemonRun(states, events) && i < k <= |events| && Sendable(m)
    requires Completes(states[i], events[i]) && Named(events[i]) == HonestSender.TagOf(m) && SameWindow(states, i, k)
    requires states[k].job.Idle? && states[k].clock <= now <= CLOCK_MAX && OpenAt(states[k].window, now)
    ensures RunsAgain(states[k], HonestSender.TagOf(m)) <==> HonestSender.TagOf(m) !in states[k].tables.completed
    ensures |states[k].completions| <= CACHE_LIMIT ==>
              (RunsAgain(states[k], HonestSender.TagOf(m)) <==> DroppedSince(states, events, i, k, HonestSender.TagOf(m)))
  {
    hide Handles, Completes, Inv, Sendable, RunsAgain, DroppedSince;
    AlwaysInv(states, events, k);
    OwnerStays(states, events, i, k);
    RunsAgainExactly(states[k], m, now);
    ForgottenExactly(states, events, i, k, HonestSender.TagOf(m));
    if |states[k].completions| <= CACHE_LIMIT {
      ListedIsCached(states[k], HonestSender.TagOf(m), now);
    }
  }

  // ---------------------------------------------------------------- it happens

  /** After a drop every honest transfer completes, in however many frames, however often its id has completed before. */
  lemma DroppedForgets(e: DaemonModel.Event, pre: Moment, post: Moment, states: seq<Tables>, steps: seq<Step>, m: Message)
    requires Handles(e, pre, post) && Drops(pre, e)
    requires Run(states, steps) && Transfer(m, steps) && states[0] == post.tables
    ensures post.window == pre.window && steps[|steps| - 1].reply == Complete(RequestOf(m))
  {
    hide TablesOk, Handles, Drops;
    EpochBoundary(e, pre, post);
    EmptyOk();
    HonestTransfer(states, steps, m);
  }

  /**
   Wherever a message may be sent, its sender can make the daemon forget it and carry it out: by one
   write that BlueZ answers for as not connected, and one more.
   */
  lemma LostSenderRunsAgain(s: Moment, m: Message, now: int) returns (states: seq<Moment>, events: seq<DaemonModel.Event>)
    requires Inv(s) && Sendable(m) && Admits(s, m.slot.peer, now) && DigestFits(s.tables, m)
    ensures Path(states, events) && |events| == 3 && states[0] == s
    ensures states[1].window == states[2].window == s.window && states[3].window == s.window.(owner := m.slot.peer)
    ensures Drops(states[1], events[1]) && Completes(states[2], events[2]) && Named(events[2]) == HonestSender.TagOf(m)
    ensures states[2].completions == [] && states[3].job.Working? && states[3].job.request == RequestOf(m)
  {
    hide Inv, WriteStep, DigestOf, TablesOk, LetIn, Admits, ObjectPath, Nonzero, TextOk, Drops, Completes;
    InvParts(s, m, now);
    PartedClear(s, m);
    var gap := Parted(s, m.slot.peer);
    var denied := WholeDrops(gap, m, now);
    var emptied := gap.(tables := EMPTY, completions := [], clock := now);
    WriteIsStep(Written(denied), gap, emptied);
    StepInv(Written(denied), gap, emptied);
    EmptyClear(m);
    AdmitsStill(gap, emptied, m.slot.peer, now);
    var again, last := WholeRuns(emptied, m, now);
    WriteIsStep(Written(again), emptied, last);
    states, events := [s, gap, emptied, last], [Disconnected(m.slot.peer), Written(denied), Written(again)];
    assert StepsAt(states, events, 0) && StepsAt(states, events, 1) && StepsAt(states, events, 2);
  }

  lemma EmptyClear(m: Message)
    requires Sendable(m)
    ensures |m.text| <= MAX_JSON && Clear(EMPTY, m)
  {
    EmptyOk();
  }

  lemma AdmitsStill(s: Moment, t: Moment, peer: string, now: int)
    requires Admits(s, peer, now) && t.job == s.job && t.clock == now
    requires t.window == s.window || t.window == s.window.(owner := peer)
    ensures Admits(t, peer, now)
  {
  }

  const PRESSED := FIRST.(window := Window(true, 1 + WINDOW_DURATION, 1, ""), clock := 1)

  lemma {:induction false} Joined(states: seq<Moment>, events: seq<DaemonModel.Event>, more: seq<Moment>, further: seq<DaemonModel.Event>)
    requires Path(states, events) && Path(more, further) && states[|events|] == more[0]
    ensures Path(states + more[1..], events + further)
  {
    hide Handles;
    var all, whole := states + more[1..], events + further;
    forall k | 0 <= k < |whole| ensures StepsAt(all, whole, k) {
      if k < |events| {
        assert StepsAt(states, events, k);
      } else {
        assert StepsAt(more, further, k - |events|);
      }
    }
  }

  /** One request from the first write to its result: the peer connects anew, writes, and the worker ends. */
  lemma Round(s: Moment, m: Message, now: int) returns (states: seq<Moment>, events: seq<DaemonModel.Event>)
    requires Inv(s) && Sendable(m) && Admits(s, m.slot.peer, now) && HonestSender.TagOf(m) !in s.tables.completed
    ensures Path(states, events) && |events| == 3 && states[0] == s && Inv(states[3])
    ensures states[1].window == s.window && states[2].window == states[3].window == s.window.(owner := m.slot.peer)
    ensures Completes(states[1], events[1]) && Named(events[1]) == HonestSender.TagOf(m)
    ensures forall l :: 0 <= l < 3 ==> !Drops(states[l], events[l])
    ensures states[3].completions == s.completions + [HonestSender.TagOf(m)] && Admits(states[3], m.slot.peer, now)
    ensures |m.text| <= MAX_JSON && states[3].clock == now && DigestFits(states[3].tables, m)
  {
    hide Inv, WriteStep, DigestOf, TablesOk, LetIn, Admits, ObjectPath, Nonzero, TextOk, Published;
    InvParts(s, m, now);
    PartedClear(s, m);
    var gap := Parted(s, m.slot.peer);
    var a, busy := WholeRuns(gap, m, now);
    WriteIsStep(Written(a), gap, busy);
    StepInv(Written(a), gap, busy);
    InvTables(busy);
    BusyDigest(busy, m);
    PositiveNow(s, m.slot.peer, now);
    var last, noted, resweep := PublishExists(busy.(job := Idle), true, now);
    var done := Done(NOTICE, true, now, noted, resweep);
    DoneIsStep(done, busy, last);
    StepInv(done, busy, last);
    NotBoth(gap, Written(a));
    AdmitsStill(s, last, m.slot.peer, now);
    states, events := [s, gap, busy, last], [Disconnected(m.slot.peer), Written(a), done];
    assert StepsAt(states, events, 0) && StepsAt(states, events, 1) && StepsAt(states, events, 2);
  }

  lemma BusyDigest(s: Moment, m: Message)
    requires Inv(s) && s.job.Working? && s.job.request == RequestOf(m) && s.active == Some(HonestSender.TagOf(m))
    ensures |m.text| <= MAX_JSON && DigestFits(s.tables, m)
  {
    hide DigestOf, TablesOk, Remembers, OwnedByWindow;
  }

  lemma PositiveNow(s: Moment, peer: string, now: int)
    requires Admits(s, peer, now)
    ensures 0 < now <= CLOCK_MAX && s.clock <= now
  {
  }

  lemma DoneIsStep(e: DaemonModel.Event, pre: Moment, post: Moment)
    requires e.Done? && pre.job.Working? && pre.clock <= e.now <= CLOCK_MAX
    requires Published(pre.(job := Idle), post, pre.job.request.slot.peer, e.result, e.ended, e.now, e.noted, e.resweep)
    ensures Handles(e, pre, post)
  {
    hide Published;
  }

  lemma Pressed()
    ensures Path([FIRST, PRESSED], [Press(1)]) && Inv(PRESSED)
  {
    assert StepsAt([FIRST, PRESSED], [Press(1)], 0);
  }

  /** There is a run for every message in which it completes twice under one press of the button. */
  lemma CompletesTwice(m: Message) returns (states: seq<Moment>, events: seq<DaemonModel.Event>)
    requires Sendable(m)
    ensures DaemonRun(states, events) && |events| == 7 && SameWindow(states, 2, 7)
    ensures Completes(states[2], events[2]) && Completes(states[6], events[6])
    ensures Named(events[2]) == Named(events[6]) == HonestSender.TagOf(m) && states[7].job.Working?
    ensures |states[6].completions| == 0
  {
    hide Handles, Inv, DigestOf, TablesOk, LetIn, Drops, Completes, ObjectPath, Nonzero, TextOk;
    Pressed();
    PathNotEmpty(m.slot.peer);
    var once, first := Round(PRESSED, m, 2);
    var twice, second := LostSenderRunsAgain(once[3], m, 2);
    Joined([FIRST, PRESSED], [Press(1)], once, first);
    states, events := [FIRST, PRESSED] + once[1..], [Press(1)] + first;
    assert states[4] == once[3];
    Joined(states, events, twice, second);
    states, events := states + twice[1..], events + second;
  }

  // ---------------------------------------------------------------- more than 64

  function Numbered(m: Message, i: nat): Message
    requires i < 255
  {
    m.(id := [i + 1] + seq(15, _ => 0))
  }

  function Names(m: Message, n: nat): seq<Tag>
    requires n <= 255
  {
    seq(n, i requires 0 <= i < n => HonestSender.TagOf(Numbered(m, i)))
  }

  lemma NumberedNew(m: Message, i: nat, n: nat)
    requires Sendable(m) && i <= n < 255
    ensures Sendable(Numbered(m, n)) && Numbered(m, n).slot == m.slot
    ensures HonestSender.TagOf(Numbered(m, i)) == HonestSender.TagOf(Numbered(m, n)) ==> i == n
  {
    hide TextOk, ObjectPath;
    assert Numbered(m, n).id[0] == n + 1 && Numbered(m, i).id[0] == i + 1;
  }

  lemma NumberedUnknown(s: Moment, m: Message, n: nat, now: int)
    requires Inv(s) && Sendable(m) && n <= CACHE_LIMIT && s.completions == Names(m, n) && Admits(s, m.slot.peer, now)
    ensures Sendable(Numbered(m, n)) && Numbered(m, n).slot == m.slot && HonestSender.TagOf(Numbered(m, n)) !in s.tables.completed
  {
    hide Inv, Sendable, Numbered;
    ListedIsCached(s, HonestSender.TagOf(Numbered(m, n)), now);
    forall i: nat | i <= n ensures HonestSender.TagOf(Numbered(m, i)) == HonestSender.TagOf(Numbered(m, n)) ==> i == n {
      NumberedNew(m, i, n);
    }
    NumberedNew(m, n, n);
  }

  /** At rest under the first press, `n` requests later. */
  predicate Resting(s: Moment, m: Message, n: nat) {
    s.job.Idle? && s.clock == n + 1 && (s.window == PRESSED.window || s.window == PRESSED.window.(owner := m.slot.peer))
  }

  lemma RestingAdmits(s: Moment, m: Message, n: nat)
    requires Resting(s, m, n) && n <= CACHE_LIMIT + 1
    ensures Admits(s, m.slot.peer, n + 2) && s.window.epoch == 1
  {
  }

  /** Up to 65 requests under one press, one after the other, and no drop. */
  lemma {:induction false} Fill(m: Message, n: nat) returns (states: seq<Moment>, events: seq<DaemonModel.Event>)
    requires Sendable(m) && n <= CACHE_LIMIT + 1
    ensures DaemonRun(states, events) && |events| == 1 + 3 * n
    ensures forall l :: 0 <= l < |events| ==> !Drops(states[l], events[l])
    ensures forall l :: 1 <= l <= |events| ==> states[l].window.epoch == 1
    ensures states[|events|].completions == Names(m, n) && Resting(states[|events|], m, n)
    ensures Inv(states[|events|])
  {
    hide Handles, Inv, DigestOf, TablesOk, Drops, Completes, Sendable, Numbered;
    if n == 0 {
      Pressed();
      states, events := [FIRST, PRESSED], [Press(1)];
      assert !Drops(FIRST, Press(1)) by { PressIsNoDrop(); }
    } else {
      states, events := Fill(m, n - 1);
      var s := states[|events|];
      RestingAdmits(s, m, n - 1);
      NumberedUnknown(s, m, n - 1, n + 1);
      var more, further := Round(s, Numbered(m, n - 1), n + 1);
      Joined(states, events, more, further);
      assert Names(m, n) == Names(m, n - 1) + [HonestSender.TagOf(Numbered(m, n - 1))];
      InvParts(more[3], Numbered(m, n - 1), n + 1);
      states, events := states + more[1..], events + further;
    }
  }

  lemma PressIsNoDrop()
    ensures !Drops(FIRST, Press(1))
  {
  }

  lemma {:induction false} TooMany(list: seq<Tag>, names: set<Tag>)
    requires (forall i, j :: 0 <= i < j < |list| ==> list[i] != list[j]) && forall t <- list :: t in names
    ensures |list| <= |names|
  {
    if list != [] {
      var last := |list| - 1;
      TooMany(list[..last], names - {list[last]});
    }
  }

  /**
   The bound of 64 cannot be raised: after 65 requests of different names under one press, without a
   drop, one of them can be carried out once more.
   */
  lemma SixtyFiveForget(m: Message) returns (states: seq<Moment>, events: seq<DaemonModel.Event>, i: nat)
    requires Sendable(m)
    ensures DaemonRun(states, events) && forall l :: 0 <= l < |events| ==> !Drops(states[l], events[l])
    ensures forall l :: 1 <= l <= |events| ==> states[l].window.epoch == 1
    ensures states[|events|].completions == Names(m, CACHE_LIMIT + 1) && i <= CACHE_LIMIT
    ensures RunsAgain(states[|events|], Names(m, CACHE_LIMIT + 1)[i])
  {
    hide Handles, Inv, Drops, Sendable, Numbered, Admits, RunsAgain;
    states, events := Fill(m, CACHE_LIMIT + 1);
    var s, names := states[|events|], Names(m, CACHE_LIMIT + 1);
    InvTables(s);
    RestingAdmits(s, m, CACHE_LIMIT + 1);
    forall a: nat, b: nat | a < b < |names| ensures names[a] != names[b] {
      NumberedNew(m, a, b);
    }
    if forall t <- names :: t in s.tables.completed.Keys {
      TooMany(names, s.tables.completed.Keys);
    }
    i :| i < |names| && names[i] !in s.tables.completed;
    NumberedNew(m, i, i);
    RunsAgainExactly(s, Numbered(m, i), CACHE_LIMIT + 3);
  }
}
