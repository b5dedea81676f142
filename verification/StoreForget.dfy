/**
 Forgetting over whole lives of the store. By design a tombstone means that the forget is to be
 completed. An apply does not look for one, so it may commit wifi.json beside it; from
 that moment no forget and no reconciliation succeeds, whatever happens. Without such an apply both always can.
 */
module StoreForget {
  import opened Bytes
  import opened Wrappers
  import Decimal
  import S = Store
  import Utf8

  /** What befalls the store. An operation cut short by a crash is one whose later steps fail, and a restart. */
  datatype Op =
    | Apply(application: S.Application)
    | Forget(authorized: bool, begin: S.ForgetIo, revoked: bool, finish: S.FinishIo)
    | Reconcile(pending: S.ForgetIo, connman: bool, finish: S.FinishIo)
    | Restart(survivor: nat, unlinks: bool, dirSynced: bool)

  const READY := S.ForgetIo(true, true, true, true, true)
  const DONE := S.FinishIo(true, true, true)

  /** Every state a crash could leave has a record beside a tombstone. */
  ghost predicate Stuck(s: S.Store)
    reads s
  {
    s.Valid() && forall k :: s.syncedAt <= k < |s.seen| ==> S.Conflict(s.seen[k])
  }

  /** No state a crash could leave has. */
  ghost predicate Free(s: S.Store)
    reads s
  {
    s.Valid() && forall k :: s.syncedAt <= k < |s.seen| ==> !S.Conflict(s.seen[k])
  }

  /** What is stored can be read. */
  predicate Legible(c: S.Codec, d: S.Dir) {
    !S.Loads(c, d.wifi, true).Unreadable? && !S.Loads(c, d.forget, true).Unreadable?
  }

  /** With working calls a forget begins over whatever can be read, but not over a conflict. */
  lemma FineForget(c: S.Codec, d: S.Dir)
    requires Legible(c, d)
    ensures S.Prepares(c, d, READY) <==> !S.Conflict(d)
  {
  }

  method DoApply(s: S.Store, a: S.Application)
    requires s.Valid()
    modifies s
    ensures s.Valid() && old(s.seen) <= s.seen
    ensures old(Stuck(s)) ==> Stuck(s)
    ensures old(Free(s)) && old(s.dir).forget.None? ==> Free(s)
  {
    hide S.Reported, S.Stranded, S.WifiValid, S.Storable;
    var change := s.ApplyWifi(a);
  }

  method DoForget(s: S.Store, authorized: bool, begin: S.ForgetIo, revoked: bool, finish: S.FinishIo) returns (done: bool)
    requires s.Valid()
    modifies s
    ensures s.Valid() && old(s.seen) <= s.seen
    ensures old(Stuck(s)) ==> Stuck(s) && !done
    ensures old(Free(s)) ==> Free(s)
    ensures done ==> s.dir.wifi.None? && s.dir.forget.None?
    ensures authorized && begin == READY && revoked && finish == DONE && Legible(s.codec, old(s.dir)) ==>
              (done <==> !S.Conflict(old(s.dir)))
  {
    hide S.WifiValid, S.Storable, S.Loads, Legible;
    ghost var before := s.dir;
    done := s.ForgetWifi(authorized, begin, revoked, finish);
    if Legible(s.codec, before) {
      FineForget(s.codec, before);
    }
  }

  method DoReconcile(s: S.Store, io: S.ForgetIo, connman: bool, finish: S.FinishIo) returns (done: bool)
    requires s.Valid()
    modifies s
    ensures s.Valid() && old(s.seen) <= s.seen
    ensures old(Stuck(s)) ==> Stuck(s) && !done
    ensures old(Free(s)) ==> Free(s)
    ensures done ==> s.dir.forget.None?
    ensures io == READY && connman && finish == DONE && Legible(s.codec, old(s.dir)) ==> (done <==> !S.Conflict(old(s.dir)))
  {
    hide S.WifiValid, S.Storable;
    done := s.Reconcile(io, connman, finish);
  }

  method DoRestart(s: S.Store, survivor: nat, unlinks: bool, dirSynced: bool)
    requires s.Valid() && s.syncedAt <= survivor < |s.seen|
    modifies s
    ensures s.Valid() && old(s.seen) <= s.seen
    ensures old(Stuck(s)) ==> Stuck(s)
    ensures old(Free(s)) ==> Free(s)
  {
    hide S.WifiValid, S.Storable, S.Loads;
    var ok := s.CrashAndOpen(s.seen[survivor], unlinks, dirSynced);
  }

  /** One operation or restart; `done` for a forget or a reconciliation that succeeds. */
  method Do(s: S.Store, op: Op) returns (done: bool)
    requires s.Valid()
    modifies s
    ensures s.Valid() && old(s.seen) <= s.seen
    ensures old(Stuck(s)) ==> Stuck(s) && !done
    ensures old(Free(s)) && (op.Apply? ==> old(s.dir).forget.None?) ==> Free(s)
    ensures done ==> s.dir.forget.None?
  {
    hide *;
    done := false;
    match op {
      case Apply(a) => DoApply(s, a);
      case Forget(authorized, begin, revoked, finish) =>
        done := DoForget(s, authorized, begin, revoked, finish);
      case Reconcile(io, connman, finish) =>
        done := DoReconcile(s, io, connman, finish);
      case Restart(choice, unlinks, dirSynced) =>
        if s.syncedAt <= choice < |s.seen| {
          DoRestart(s, choice, unlinks, dirSynced);
        }
    }
  }

  /** From a record beside a tombstone no run of operations and crashes ever completes a forget or reconciles. */
  method NeverForgotten(s: S.Store, ops: seq<Op>) returns (done: bool)
    requires Stuck(s)
    modifies s
    ensures Stuck(s) && S.Conflict(s.dir) && !done
  {
    done := false;
    for i := 0 to |ops|
      invariant Stuck(s) && !done
    {
      var did := Do(s, ops[i]);
      done := done || did;
    }
  }

  /**
   A caller that applies no configuration while a tombstone is there never comes to that state, so that at any
   time a forget whose calls all work succeeds over what can be read.
   */
  method AlwaysForgettable(s: S.Store, ops: seq<Op>) returns (done: bool, ghost before: S.Dir)
    requires Free(s)
    modifies s
    ensures Free(s)
    ensures done ==> s.dir.wifi.None? && s.dir.forget.None?
    ensures !done ==> !Legible(s.codec, before)
  {
    hide S.WifiValid, S.Storable, S.Loads, Legible;
    for i := 0 to |ops|
      invariant Free(s)
    {
      if !(ops[i].Apply? && s.dir.forget.Some?) {
        var did := Do(s, ops[i]);
      }
    }
    before := s.dir;
    done := DoForget(s, true, READY, true, DONE);
  }

  /** A fault-free apply where there is no record. */
  method Commit(s: S.Store, w: S.Wifi)
    requires s.Valid() && s.dir.wifi.None? && S.WifiValid(w) && |s.codec.spell(S.Record(1, w))| <= S.STORE_MAX_BYTES
    modifies s
    ensures s.Valid() && s.Durable() && s.dir.forget == old(s.dir).forget && s.Holds(w)
    ensures s.dir.wifi.value.record == Some(S.Record(1, w))
  {
    hide S.WifiValid, S.Restoring;
    var change := s.ApplyWifi(S.Application(Some(w), true, S.FINE, true, true, S.FINE, true));
  }

  /**
   How it comes about with every file operation working: apply a configuration, forget it while ConnMan does
   not revoke it, apply it again.
   */
  method Clash(codec: S.Codec, w: S.Wifi) returns (s: S.Store)
    requires S.CodecOk(codec) && S.WifiValid(w)
    requires |codec.spell(S.Record(1, w))| <= S.STORE_MAX_BYTES && codec.parse(codec.spell(S.Record(1, w))).Some?
    ensures Stuck(s) && s.Durable() && Legible(s.codec, s.dir)
  {
    hide S.WifiValid, S.Storable;
    s := new S.Store(codec);
    Commit(s, w);
    var forgotten := s.ForgetWifi(true, READY, false, DONE);
    Commit(s, w);
  }
}
