/**
 The physical-presence window (security.c) and the connection epochs of the peers (bluez.c). Both
 epochs are unsigned 64-bit counters that skip zero when they wrap; a run says how often each moved.
 */
module Security {
  import opened ProtocolKeys
  import opened Wrappers

  const WINDOW_DURATION := 120_000_000
  const OWNER_CAP := 512
  const CYCLE := 0xFFFF_FFFF_FFFF_FFFF

  type epoch = e: int | 0 <= e <= CYCLE

  /** advance_epoch and next_epoch_locked: 64-bit increment, then again on zero. */
  function NextEpoch(e: epoch): (next: epoch)
    ensures next != 0 && next != e
  {
    var once := (e + 1) % (CYCLE + 1);
    if once == 0 then once + 1 else once
  }

  datatype Window = Window(open: bool, deadline: int, epoch: epoch, owner: string)

  /** `bus` is the unique name of the running BlueZ, "" without one. */
  datatype Peers = Peers(counter: epoch, epochs: map<string, epoch>, bus: string)

  datatype PeerSecurity = PeerSecurity(connected: bool, paired: bool, bonded: bool, stableIdentity: bool,
                                       encrypted: bool, connectionEpoch: epoch)

  datatype Verdict = Allowed | Denied(reason: Reason)
  datatype Reason = NotPaired | Unauthorized | WindowClosed

  const SHUT := Window(false, 0, 0, "")

  // ---------------------------------------------------------------- the window

  predicate OpenAt(w: Window, now: int) {
    w.open && 0 < now < w.deadline
  }

  function Opened(w: Window, now: int): Window {
    if now <= 0 then w else Window(true, now + WINDOW_DURATION, NextEpoch(w.epoch), "")
  }

  function Closed(w: Window): Window {
    Window(false, 0, if w.open || w.owner != "" then NextEpoch(w.epoch) else w.epoch, "")
  }

  function Ticked(w: Window, now: int): Window {
    if w.open && now >= w.deadline then Window(false, 0, NextEpoch(w.epoch), "") else w
  }

  function BluezGone(w: Window): Window {
    w.(epoch := NextEpoch(w.epoch), owner := "")
  }

  function AllowPairing(w: Window, peer: string, now: int): Verdict {
    if !ObjectPath(peer) then Denied(Unauthorized)
    else if !OpenAt(w, now) then Denied(WindowClosed)
    else if w.owner != "" && w.owner != peer then Denied(Unauthorized)
    else Allowed
  }

  function CurrentlyEligible(p: PeerSecurity): Verdict {
    if !p.paired || !p.bonded then Denied(NotPaired)
    else if !p.connected || !p.stableIdentity then Denied(Unauthorized)
    else Allowed
  }

  function InitiallyEligible(p: PeerSecurity): Verdict {
    if !p.encrypted then Denied(Unauthorized) else CurrentlyEligible(p)
  }

  /** g_strlcpy into the owner buffer. */
  function Clipped(peer: string): string {
    if |peer| < OWNER_CAP then peer else peer[..OWNER_CAP - 1]
  }

  /** egp_security_authorize_sensitive */
  function AuthorizeSensitive(w: Window, peer: string, p: PeerSecurity, claim: bool, now: int): Verdict {
    if !ObjectPath(peer) then Denied(Unauthorized)
    else if InitiallyEligible(p).Denied? then InitiallyEligible(p)
    else if !OpenAt(w, now) then Denied(WindowClosed)
    else if (w.owner == "" && claim) || w.owner == peer then Allowed
    else Denied(Unauthorized)
  }

  function Claimed(w: Window, peer: string, p: PeerSecurity, claim: bool, now: int): Window {
    if AuthorizeSensitive(w, peer, p, claim, now).Allowed? && w.owner == "" then w.(owner := Clipped(peer)) else w
  }

  /** egp_security_authorize_commit */
  function AuthorizeCommit(w: Window, peer: string, p: PeerSecurity, windowEpoch: epoch, connectionEpoch: epoch, now: int): Verdict {
    if !ObjectPath(peer) || windowEpoch == 0 || connectionEpoch == 0 then Denied(Unauthorized)
    else if CurrentlyEligible(p).Denied? then CurrentlyEligible(p)
    else if p.connectionEpoch != connectionEpoch then Denied(Unauthorized)
    else if !OpenAt(w, now) then Denied(WindowClosed)
    else if w.epoch == windowEpoch && w.owner != "" && w.owner == peer then Allowed
    else Denied(Unauthorized)
  }

  // ---------------------------------------------------------------- the peers

  /** peer_epoch_locked */
  function LookedUp(p: Peers, peer: string): Peers {
    if peer in p.epochs then p else Bumped(p, peer)
  }

  function EpochOf(p: Peers, peer: string): epoch {
    if peer in p.epochs then p.epochs[peer] else 0
  }

  /** bump_peer_epoch */
  function Bumped(p: Peers, peer: string): Peers {
    var next := NextEpoch(p.counter);
    p.(counter := next, epochs := p.epochs[peer := next])
  }

  /** name_appeared and name_vanished */
  function BusChanged(p: Peers, bus: string): Peers {
    Peers(NextEpoch(p.counter), map[], bus)
  }

  /** The epoch egp_bluez_peer_security reports, from its reads before and after the property call; 0 without BlueZ. */
  function Reported(before: Peers, after: Peers, peer: string): epoch {
    if before.bus != "" && before.bus == after.bus && EpochOf(before, peer) == EpochOf(after, peer) then EpochOf(after, peer) else 0
  }

  // ---------------------------------------------------------------- runs

  datatype Event =
    | Open(now: int)
    | Close
    | Tick(now: int)
    | Query(now: int)                 // egp_security_window_open
    | Sensitive(peer: string, security: PeerSecurity, claim: bool, now: int)
    | Lookup(peer: string)
    | Bump(peer: string)
    | NameAppeared(bus: string)
    | NameVanished                    // its peer section ...
    | OwnerLost                       // ... and egp_security_bluez_lost, under the other lock

  datatype State = State(window: Window, peers: Peers)

  const START := State(SHUT, Peers(0, map[], ""))

  function WindowStep(w: Window, e: Event): Window {
    match e
    case Open(now) => Opened(w, now)
    case Close => Closed(w)
    case Tick(now) => Ticked(w, now)
    case Query(now) => if now > 0 && !OpenAt(w, now) then Closed(w) else w
    case Sensitive(peer, security, claim, now) => Claimed(w, peer, security, claim, now)
    case OwnerLost => BluezGone(w)
    case _ => w
  }

  function PeersStep(p: Peers, e: Event): Peers {
    match e
    case Lookup(peer) => LookedUp(p, peer)
    case Bump(peer) => Bumped(p, peer)
    case NameAppeared(bus) => BusChanged(p, bus)
    case NameVanished => BusChanged(p, "")
    case _ => p
  }

  function At(start: State, events: seq<Event>, k: nat): State
    requires k <= |events|
  {
    if k == 0 then start
    else
      var s := At(start, events, k - 1);
      State(WindowStep(s.window, events[k - 1]), PeersStep(s.peers, events[k - 1]))
  }

  /** How often the window's epoch moves in the events `i` to `k`. */
  function WindowMoves(start: State, events: seq<Event>, i: nat, k: nat): (n: nat)
    requires i <= k <= |events|
    decreases k
  {
    if i == k then 0
    else WindowMoves(start, events, i, k - 1) + (if At(start, events, k).window.epoch != At(start, events, k - 1).window.epoch then 1 else 0)
  }

  function PeerMoves(start: State, events: seq<Event>, i: nat, k: nat): (n: nat)
    requires i <= k <= |events|
    decreases k
  {
    if i == k then 0
    else PeerMoves(start, events, i, k - 1) + (if At(start, events, k).peers.counter != At(start, events, k - 1).peers.counter then 1 else 0)
  }

  /** Where a counter stands `n` moves after a nonzero `e`. */
  function Moved(e: epoch, n: nat): (r: epoch)
    requires e != 0
    ensures r != 0
  {
    (e - 1 + n) % CYCLE + 1
  }

  lemma MovedNext(e: epoch, n: nat)
    requires e != 0
    ensures Moved(e, n + 1) == NextEpoch(Moved(e, n))
  {
    var m := e - 1 + n;
    if m % CYCLE == CYCLE - 1 {
      assert (m + 1) % CYCLE == 0;
    } else {
      assert (m + 1) % CYCLE == m % CYCLE + 1;
    }
  }

  /** A counter does not come back to where it was within less than one cycle. */
  lemma MovedReturns(e: epoch, n: nat)
    requires e != 0 && n < CYCLE && Moved(e, n) == e
    ensures n == 0
  {
    ModSum(e - 1, n);
  }

  lemma ModSum(a: nat, n: nat)
    requires a < CYCLE && n < CYCLE
    ensures (a + n) % CYCLE == if a + n < CYCLE then a + n else a + n - CYCLE
  {
  }

  /** An event either leaves the window alone, or lets an owner in, or moves its epoch to the next one. */
  lemma WindowStepMoves(w: Window, e: Event)
    ensures var v := WindowStep(w, e);
      && (v.epoch == w.epoch || v.epoch == NextEpoch(w.epoch))
      && (v.epoch == w.epoch && w.open ==> v.open && v.deadline == w.deadline && (w.owner != "" ==> v == w))
      && (v.epoch == w.epoch && w.open && w.owner != "" ==> !Ends(e, w))
  {
  }

  /** Window opening, closing, expiry, and loss of BlueZ. */
  predicate Ends(e: Event, w: Window) {
    match e
    case Open(now) => now > 0
    case Close => true
    case Tick(now) => now >= w.deadline
    case Query(now) => now > 0 && now >= w.deadline
    case OwnerLost => true
    case _ => false
  }

  lemma {:induction false} WindowAfter(start: State, events: seq<Event>, i: nat, k: nat)
    requires i <= k <= |events| && At(start, events, i).window.epoch != 0
    ensures At(start, events, k).window.epoch == Moved(At(start, events, i).window.epoch, WindowMoves(start, events, i, k))
    decreases k
  {
    hide WindowStep, PeersStep, Moved, NextEpoch;
    var e := At(start, events, i).window.epoch;
    if i == k {
      MovedNone(e);
    } else {
      WindowAfter(start, events, i, k - 1);
      WindowStepMoves(At(start, events, k - 1).window, events[k - 1]);
      MovedNext(e, WindowMoves(start, events, i, k - 1));
    }
  }

  lemma MovedNone(e: epoch)
    requires e != 0
    ensures Moved(e, 0) == e
  {
  }

  lemma {:induction false} MovesGrow(start: State, events: seq<Event>, i: nat, n: nat, k: nat)
    requires i <= n <= k <= |events|
    ensures WindowMoves(start, events, i, n) <= WindowMoves(start, events, i, k)
    ensures PeerMoves(start, events, i, n) <= PeerMoves(start, events, i, k)
    decreases k
  {
    hide At, WindowStep, PeersStep;
    if n < k {
      MovesGrow(start, events, i, n, k - 1);
    }
  }

  /** From an owned, open window back to its epoch without a full cycle: nothing happened to the window. */
  lemma {:induction false} WindowUntouched(start: State, events: seq<Event>, i: nat, k: nat)
    requires i <= k <= |events| && WindowMoves(start, events, i, k) == 0
    requires At(start, events, i).window.open && At(start, events, i).window.owner != ""
    ensures forall n :: i <= n <= k ==> At(start, events, n).window == At(start, events, i).window
    ensures forall n :: i <= n < k ==> !Ends(events[n], At(start, events, i).window)
    decreases k
  {
    hide WindowStep, PeersStep, NextEpoch, Ends;
    if i < k {
      WindowUntouched(start, events, i, k - 1);
      WindowStepMoves(At(start, events, k - 1).window, events[k - 1]);
    }
  }

  /** A reported change of that peer, or of BlueZ as a whole. */
  predicate Disturbs(e: Event, peer: string) {
    e.NameAppeared? || e.NameVanished? || (e.Bump? && e.peer == peer)
  }

  /** While the counter does not wrap, stored epochs are below it and new ones above. */
  lemma PeersStepMoves(p: Peers, e: Event, peer: string)
    requires p.counter < CYCLE || PeersStep(p, e).counter == p.counter
    requires peer in p.epochs ==> p.epochs[peer] <= p.counter
    ensures var q := PeersStep(p, e);
      && p.counter <= q.counter <= p.counter + 1
      && (peer in q.epochs ==> 0 < q.epochs[peer] == q.counter == p.counter + 1 || Keeps(p, q, e, peer))
      && (peer in q.epochs ==> q.epochs[peer] <= q.counter)
  {
  }

  predicate Keeps(p: Peers, q: Peers, e: Event, peer: string) {
    peer in p.epochs && peer in q.epochs && q.epochs[peer] == p.epochs[peer] && !Disturbs(e, peer)
  }

  lemma {:induction false} CounterIsMoves(events: seq<Event>, k: nat, peer: string)
    requires k <= |events| && PeerMoves(START, events, 0, k) <= CYCLE
    ensures var p := At(START, events, k).peers;
      && p.counter == PeerMoves(START, events, 0, k)
      && (peer in p.epochs ==> p.epochs[peer] <= p.counter)
  {
    hide WindowStep, PeersStep, Disturbs;
    if k > 0 {
      CounterIsMoves(events, k - 1, peer);
      PeersStepMoves(At(START, events, k - 1).peers, events[k - 1], peer);
    }
  }

  /** Since event `i` the peer has kept its epoch undisturbed, or it has a later one, or none. */
  ghost predicate KeptOrLater(events: seq<Event>, i: nat, k: nat, peer: string)
    requires i <= k <= |events|
  {
    var p, q := At(START, events, i).peers, At(START, events, k).peers;
    peer in q.epochs && q.epochs[peer] <= p.counter ==> Undisturbed(events, i, k, peer)
  }

  ghost predicate Undisturbed(events: seq<Event>, i: nat, k: nat, peer: string)
    requires i <= k <= |events|
  {
    && (forall n :: i <= n < k ==> !Disturbs(events[n], peer))
    && (forall n :: i <= n <= k ==> EpochOf(At(START, events, n).peers, peer) == EpochOf(At(START, events, i).peers, peer))
  }

  lemma {:induction false} PeerKept(events: seq<Event>, i: nat, k: nat, peer: string)
    requires i <= k <= |events| && PeerMoves(START, events, 0, k) <= CYCLE
    ensures KeptOrLater(events, i, k, peer)
    ensures At(START, events, i).peers.counter <= At(START, events, k).peers.counter
    decreases k
  {
    hide WindowStep, PeersStep, Disturbs, NextEpoch;
    if i < k {
      PeerKept(events, i, k - 1, peer);
      CounterIsMoves(events, k - 1, peer);
      CounterIsMoves(events, k, peer);
      PeersStepMoves(At(START, events, k - 1).peers, events[k - 1], peer);
    }
  }

  /** Every open window goes back to one press of the button, whose time fixes its end. */
  lemma {:induction false} OpenedBy(events: seq<Event>, k: nat) returns (o: nat)
    requires k <= |events| && At(START, events, k).window.open
    ensures o < k && events[o].Open? && events[o].now > 0
    ensures forall n :: o < n <= k ==> At(START, events, n).window.open
    ensures forall n :: o < n <= k ==> At(START, events, n).window.deadline == events[o].now + WINDOW_DURATION
  {
    var w, e := At(START, events, k - 1).window, events[k - 1];
    if e.Open? && e.now > 0 {
      o := k - 1;
    } else {
      o := OpenedBy(events, k - 1);
    }
  }

  lemma {:induction false} OwnedIsOpen(events: seq<Event>, k: nat)
    requires k <= |events|
    ensures At(START, events, k).window.owner != "" ==> At(START, events, k).window.open
  {
    if k > 0 {
      OwnedIsOpen(events, k - 1);
    }
  }

  /**
   A commit checked with the epochs captured when its request was accepted: since then no window
   event happened, the owner has been that peer, the peer's connection was not disturbed before its
   epoch was read for the last time, and the window opened less than 120 s ago. The request is
   accepted at `i`; the commit reads the peer's epoch at `b` and at `j` and the window at `k`.
   */
  lemma CommitIsFresh(events: seq<Event>, i: nat, b: nat, j: nat, k: nat, peer: string, security: PeerSecurity, now: int)
    returns (o: nat)
    requires i <= b <= j <= k <= |events| && |peer| < OWNER_CAP
    requires WindowMoves(START, events, i, k) < CYCLE && PeerMoves(START, events, 0, j) <= CYCLE
    requires At(START, events, i).window.owner == peer
    requires security.connectionEpoch == Reported(At(START, events, b).peers, At(START, events, j).peers, peer)
    requires AuthorizeCommit(At(START, events, k).window, peer, security, At(START, events, i).window.epoch,
                             EpochOf(At(START, events, i).peers, peer), now).Allowed?
    ensures forall n :: i <= n <= k ==> At(START, events, n).window == At(START, events, i).window
    ensures forall n :: i <= n < k ==> !Ends(events[n], At(START, events, i).window)
    ensures forall n :: i <= n < j ==> !Disturbs(events[n], peer)
    ensures o < i && events[o].Open? && 0 < events[o].now && now < events[o].now + WINDOW_DURATION
    ensures forall n :: o < n <= i ==> At(START, events, n).window.open
  {
    hide WindowStep, PeersStep, Disturbs, Ends, NextEpoch, Moved;
    OwnedIsOpen(events, i);
    WindowAfter(START, events, i, k);
    MovedReturns(At(START, events, i).window.epoch, WindowMoves(START, events, i, k));
    WindowUntouched(START, events, i, k);
    PeerKept(events, i, j, peer);
    MovesGrow(START, events, 0, i, j);
    CounterIsMoves(events, i, peer);
    o := OpenedBy(events, i);
  }

  /** A peer whose connection may be trusted with secrets. */
  predicate Trusted(p: PeerSecurity) {
    p.connected && p.paired && p.bonded && p.stableIdentity
  }

  lemma {:induction false} WindowStands(start: State, events: seq<Event>, i: nat, k: nat)
    requires i <= k <= |events|
    requires At(start, events, i).window.open && At(start, events, i).window.owner != "" && 0 < At(start, events, i).window.deadline
    requires forall n :: i <= n < k ==> !Ends(events[n], At(start, events, i).window)
    ensures At(start, events, k).window == At(start, events, i).window
    decreases k
  {
    hide PeersStep;
    if i < k {
      WindowStands(start, events, i, k - 1);
    }
  }

  lemma {:induction false} OpenHasEpoch(events: seq<Event>, k: nat)
    requires k <= |events|
    ensures At(START, events, k).window.open ==> At(START, events, k).window.epoch != 0
  {
    hide PeersStep;
    if k > 0 {
      OpenHasEpoch(events, k - 1);
    }
  }

  /**
   A commit is authorised exactly if since the capture nothing has ended the window, the time is within
   it, and the peer is trusted under the very epoch captured.
   */
  lemma CommitExactly(events: seq<Event>, i: nat, k: nat, peer: string, p: PeerSecurity, captured: epoch, now: int)
    requires i <= k <= |events| && WindowMoves(START, events, i, k) < CYCLE && ObjectPath(peer)
    requires At(START, events, i).window.owner == peer
    ensures AuthorizeCommit(At(START, events, k).window, peer, p, At(START, events, i).window.epoch, captured, now).Allowed? <==>
            && Trusted(p) && p.connectionEpoch == captured != 0 && 0 < now < At(START, events, i).window.deadline
            && forall n :: i <= n < k ==> !Ends(events[n], At(START, events, i).window)
  {
    hide WindowStep, PeersStep, Ends, NextEpoch, Moved, ObjectPath;
    var w := At(START, events, i).window;
    PathNamed(peer);
    OwnedIsOpen(events, i);
    OpenHasEpoch(events, i);
    var o := OpenedBy(events, i);
    WindowAfter(START, events, i, k);
    if At(START, events, k).window.epoch == w.epoch {
      MovedReturns(w.epoch, WindowMoves(START, events, i, k));
      WindowUntouched(START, events, i, k);
    } else if forall n :: i <= n < k ==> !Ends(events[n], w) {
      WindowStands(START, events, i, k);
    }
  }

  /** The epoch reported is the captured one exactly if nothing has disturbed the peer since, and BlueZ is there. */
  lemma ReportedExactly(events: seq<Event>, i: nat, b: nat, j: nat, peer: string)
    requires i <= b <= j <= |events| && PeerMoves(START, events, 0, j) <= CYCLE
    requires At(START, events, i).peers.bus != "" && peer in At(START, events, i).peers.epochs
    ensures Reported(At(START, events, b).peers, At(START, events, j).peers, peer) == EpochOf(At(START, events, i).peers, peer) <==>
            forall n :: i <= n < j ==> !Disturbs(events[n], peer)
  {
    hide WindowStep, PeersStep, Disturbs, NextEpoch;
    CounterIsMoves(events, i, peer) by { MovesGrow(START, events, 0, i, j); }
    EpochPositive(events, i, peer);
    if forall n :: i <= n < j ==> !Disturbs(events[n], peer) {
      PeerStands(events, i, b, peer);
      PeerStands(events, i, j, peer);
    } else if Reported(At(START, events, b).peers, At(START, events, j).peers, peer) == EpochOf(At(START, events, i).peers, peer) {
      PeerKept(events, i, j, peer);
    }
  }

  lemma {:induction false} EpochPositive(events: seq<Event>, k: nat, peer: string)
    requires k <= |events|
    ensures peer in At(START, events, k).peers.epochs ==> At(START, events, k).peers.epochs[peer] != 0
  {
    hide WindowStep;
    if k > 0 {
      EpochPositive(events, k - 1, peer);
    }
  }

  lemma {:induction false} PeerStands(events: seq<Event>, i: nat, k: nat, peer: string)
    requires i <= k <= |events| && peer in At(START, events, i).peers.epochs
    requires forall n :: i <= n < k ==> !Disturbs(events[n], peer)
    ensures var p, q := At(START, events, i).peers, At(START, events, k).peers;
      q.bus == p.bus && peer in q.epochs && q.epochs[peer] == p.epochs[peer]
    decreases k
  {
    hide WindowStep, NextEpoch;
    if i < k {
      PeerStands(events, i, k - 1, peer);
    }
  }

  /** The owner of a window got it by a frame in time, over an encrypted link, as a connected, bonded peer. */
  lemma {:induction false} OwnerIsTrusted(events: seq<Event>, k: nat) returns (n: nat)
    requires k <= |events| && At(START, events, k).window.owner != ""
    ensures n < k && events[n].Sensitive? && events[n].claim && Clipped(events[n].peer) == At(START, events, k).window.owner
    ensures Trusted(events[n].security) && events[n].security.encrypted
    ensures OpenAt(At(START, events, n).window, events[n].now) && At(START, events, n).window.owner == ""
    ensures At(START, events, n).window.epoch == At(START, events, k).window.epoch
  {
    hide PeersStep, ObjectPath, NextEpoch;
    var w, e := At(START, events, k - 1).window, events[k - 1];
    if w.owner == "" {
      n := k - 1;
    } else {
      n := OwnerIsTrusted(events, k - 1);
    }
  }

  /** What bluez.c does under the lock of its peers. */
  predicate PeersOnly(e: Event) {
    e.Lookup? || e.Bump? || e.NameAppeared? || e.NameVanished?
  }

  lemma {:induction false} AtPrefix(start: State, events: seq<Event>, more: seq<Event>, k: nat)
    requires k <= |events|
    ensures At(start, events + more, k) == At(start, events, k)
  {
    hide WindowStep, PeersStep;
    if k > 0 {
      AtPrefix(start, events, more, k - 1);
    }
  }

  /** Whatever happens to the peers after the last read of the epoch, the verdict on the commit is the same. */
  lemma {:induction false} LateEventsUnseen(events: seq<Event>, more: seq<Event>, peer: string, security: PeerSecurity,
                                            windowEpoch: epoch, connectionEpoch: epoch, now: int)
    requires forall e <- more :: PeersOnly(e)
    ensures At(START, events + more, |events| + |more|).window == At(START, events, |events|).window
    ensures AuthorizeCommit(At(START, events + more, |events| + |more|).window, peer, security, windowEpoch, connectionEpoch, now) ==
            AuthorizeCommit(At(START, events, |events|).window, peer, security, windowEpoch, connectionEpoch, now)
    decreases |more|
  {
    hide PeersStep, WindowStep, AuthorizeCommit;
    if more == [] {
      assert events + more == events;
    } else {
      var n, last := |more| - 1, more[|more| - 1];
      LateEventsUnseen(events, more[..n], peer, security, windowEpoch, connectionEpoch, now);
      assert events + more == (events + more[..n]) + [last];
      AtPrefix(START, events + more[..n], [last], |events| + n);
      WindowStays(At(START, events + more, |events| + n).window, last);
    }
  }

  lemma WindowStays(w: Window, e: Event)
    requires PeersOnly(e)
    ensures WindowStep(w, e) == w
  {
  }

  /** So a disturbance between that read and the check of the window goes unseen. */
  lemma LateDisturbance(peer: string) returns (events: seq<Event>, security: PeerSecurity)
    requires ObjectPath(peer) && |peer| < OWNER_CAP
    ensures |events| == 5 && Disturbs(events[4], peer)
    ensures At(START, events, 4).window.owner == peer && At(START, events, 4).peers.bus != ""
    ensures security.connectionEpoch == Reported(At(START, events, 4).peers, At(START, events, 4).peers, peer) != 0
    ensures AuthorizeCommit(At(START, events, 5).window, peer, security, At(START, events, 4).window.epoch,
                            EpochOf(At(START, events, 4).peers, peer), 2).Allowed?
  {
    hide ObjectPath;
    PathNamed(peer);
    security := PeerSecurity(true, true, true, true, true, 2);
    events := [NameAppeared(":1.1"), Open(1), Lookup(peer), Sensitive(peer, security, true, 2), Bump(peer)];
    var w := Window(true, 1 + WINDOW_DURATION, 1, "");
    assert At(START, events, 0) == START;
    assert At(START, events, 1) == State(SHUT, Peers(1, map[], ":1.1"));
    assert At(START, events, 2) == State(w, Peers(1, map[], ":1.1"));
    assert At(START, events, 3) == State(w, Peers(2, map[peer := 2], ":1.1"));
    assert At(START, events, 4) == State(w.(owner := peer), Peers(2, map[peer := 2], ":1.1"));
  }

  lemma PathNamed(peer: string)
    requires ObjectPath(peer)
    ensures peer != ""
  {
  }

  // ---------------------------------------------------------------- the objects

  /** EgpSecurity: the window under its lock. */
  class WindowGuard {
    var open: bool
    var deadline: int
    var windowEpoch: epoch
    var owner: string

    function Value(): Window
      reads this
    {
      Window(open, deadline, windowEpoch, owner)
    }

    constructor ()
      ensures Value() == SHUT
    {
      open, deadline, windowEpoch, owner := false, 0, 0, "";
    }

    method AdvanceEpoch()
      modifies this`windowEpoch
      ensures windowEpoch == NextEpoch(old(windowEpoch))
    {
      windowEpoch := if windowEpoch == CYCLE then 0 else windowEpoch + 1;
      if windowEpoch == 0 {
        windowEpoch := windowEpoch + 1;
      }
    }

    /** egp_security_open_window; `notify` is the callback it makes. */
    method OpenWindow(now: int) returns (notify: bool)
      modifies this
      ensures Value() == Opened(old(Value()), now) && notify == (now > 0)
    {
      if now <= 0 {
        return false;
      }
      open := true;
      deadline := now + WINDOW_DURATION;
      AdvanceEpoch();
      owner := "";
      notify := true;
    }

    method CloseWindow() returns (notify: bool)
      modifies this
      ensures Value() == Closed(old(Value())) && notify == (old(open) || old(owner) != "")
    {
      notify := open || owner != "";
      open := false;
      deadline := 0;
      if notify {
        AdvanceEpoch();
      }
      owner := "";
    }

    method ExpiryTick(now: int) returns (notify: bool)
      modifies this
      ensures Value() == Ticked(old(Value()), now) && notify == (old(open) && now >= old(deadline))
    {
      notify := false;
      if open && now >= deadline {
        open := false;
        deadline := 0;
        AdvanceEpoch();
        owner := "";
        notify := true;
      }
    }

    method BluezLost()
      modifies this
      ensures Value() == BluezGone(old(Value()))
    {
      AdvanceEpoch();
      owner := "";
    }

    /** egp_security_authorize_sensitive */
    method Authorize(peer: string, p: PeerSecurity, claim: bool, now: int) returns (verdict: Verdict)
      modifies this`owner
      ensures verdict == AuthorizeSensitive(old(Value()), peer, p, claim, now)
      ensures Value() == Claimed(old(Value()), peer, p, claim, now)
    {
      if !ObjectPath(peer) {
        return Denied(Unauthorized);
      }
      verdict := InitiallyEligible(p);
      if verdict.Denied? {
        return;
      }
      var isOpen, authorized := open && now > 0 && now < deadline, false;
      if isOpen {
        if owner == "" && claim {
          owner := Clipped(peer);
          authorized := true;
        } else {
          authorized := owner == peer;
        }
      }
      verdict := if !isOpen then Denied(WindowClosed) else if !authorized then Denied(Unauthorized) else Allowed;
    }

    /** egp_security_authorize_commit */
    method Commit(peer: string, p: PeerSecurity, expectedWindow: epoch, expectedConnection: epoch, now: int) returns (verdict: Verdict)
      ensures verdict == AuthorizeCommit(Value(), peer, p, expectedWindow, expectedConnection, now)
    {
      if !ObjectPath(peer) || expectedWindow == 0 || expectedConnection == 0 {
        return Denied(Unauthorized);
      }
      verdict := CurrentlyEligible(p);
      if verdict.Denied? {
        return;
      }
      if p.connectionEpoch != expectedConnection {
        return Denied(Unauthorized);
      }
      var isOpen := open && now > 0 && now < deadline;
      var authorized := isOpen && windowEpoch == expectedWindow && owner != "" && owner == peer;
      verdict := if !isOpen then Denied(WindowClosed) else if !authorized then Denied(Unauthorized) else Allowed;
    }
  }

  /** The peer part of EgpBluez, under peer_lock. */
  class PeerTable {
    var nextPeerEpoch: epoch
    var peerEpochs: map<string, epoch>
    var uniqueOwner: string

    function Value(): Peers
      reads this
    {
      Peers(nextPeerEpoch, peerEpochs, uniqueOwner)
    }

    constructor ()
      ensures Value() == START.peers
    {
      nextPeerEpoch, peerEpochs, uniqueOwner := 0, map[], "";
    }

    method Next() returns (e: epoch)
      modifies this`nextPeerEpoch
      ensures e == nextPeerEpoch == NextEpoch(old(nextPeerEpoch))
    {
      nextPeerEpoch := if nextPeerEpoch == CYCLE then 0 else nextPeerEpoch + 1;
      if nextPeerEpoch == 0 {
        nextPeerEpoch := nextPeerEpoch + 1;
      }
      e := nextPeerEpoch;
    }

    /** peer_epoch_locked */
    method PeerEpoch(peer: string, create: bool) returns (e: epoch)
      modifies this
      ensures Value() == if create then LookedUp(old(Value()), peer) else old(Value())
      ensures e == EpochOf(Value(), peer)
    {
      if peer !in peerEpochs && create {
        var stored := Next();
        peerEpochs := peerEpochs[peer := stored];
      }
      e := if peer in peerEpochs then peerEpochs[peer] else 0;
    }

    method Bump(peer: string)
      modifies this
      ensures Value() == Bumped(old(Value()), peer)
    {
      var stored := Next();
      peerEpochs := peerEpochs[peer := stored];
    }

    /** name_appeared, and name_vanished with an empty name */
    method ChangeBus(bus: string)
      modifies this
      ensures Value() == BusChanged(old(Value()), bus)
    {
      uniqueOwner := bus;
      peerEpochs := map[];
      var unused := Next();
    }
  }
}
