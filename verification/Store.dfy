/**
 The provisioning store (store.c) and the Wi-Fi operation over it (operations.c): one record,
 replaced atomically, with generations that only grow, and rolled back when it cannot be applied.

 The directory is a value that single system calls change; `seen` lists every state it has been in.
 A crash leaves any state since the last directory sync, with unsynced file contents torn.
 */
module Store {
  import opened Bytes
  import opened Wrappers
  import Decimal
  import Utf8

  const SSID_MAX := 32
  const STORE_MAX_BYTES := 65536

  datatype Wifi = Wifi(ssid: seq<byte>, security: string, passphrase: seq<byte>, hidden: bool)

  datatype Record = Record(generation: nat, wifi: Wifi)

  /** egp_wifi_validate. Control characters are U+0000 to U+001F and U+007F to U+009F. */
  predicate WifiValid(w: Wifi) {
    && 1 <= |w.ssid| <= SSID_MAX && w.security == "psk" && Utf8.Valid(w.ssid)
    && (forall i :: 0 <= i < |w.ssid| ==> w.ssid[i] >= 0x20 && w.ssid[i] != 0x7F)
    && (forall i :: 0 < i < |w.ssid| ==> !(w.ssid[i - 1] == 0xC2 && 0x80 <= w.ssid[i] <= 0x9F))
    && (if |w.passphrase| == 64 then forall b <- w.passphrase :: HexDigit(b)
        else 8 <= |w.passphrase| <= 63 && forall b <- w.passphrase :: 0x20 <= b <= 0x7E)
  }

  predicate Storable(r: Record) {
    0 < r.generation <= Decimal.INT64_MAX && WifiValid(r.wifi)
  }

  /** serialize_wifi and parse_wifi_data, whose JSON library is not part of this model. */
  datatype Codec = Codec(spell: Record -> seq<byte>, parse: seq<byte> -> Option<Record>)

  /** What is read is well formed; a printed record is read as itself or not at all. */
  ghost predicate CodecOk(c: Codec) {
    && (forall s: seq<byte> :: c.parse(s).Some? ==> Storable(c.parse(s).value))
    && (forall r: Record :: c.parse(c.spell(r)).Some? ==> c.parse(c.spell(r)).value == r)
  }

  /** A file's bytes, whether they are on disk, and the record they spell once they are complete. */
  datatype File = File(content: seq<byte>, synced: bool, record: Option<Record>)

  /** The named files; `floor` is history: the last record reported since wifi.json was last absent. */
  datatype Dir = Dir(wifi: Option<File>, forget: Option<File>, rollback: Option<File>, floor: nat)

  ghost predicate Complete(c: Codec, f: File) {
    f.synced && f.record.Some? && Storable(f.record.value) && f.content == c.spell(f.record.value)
  }

  /** wifi.json is absent or holds one complete record, not older than the last one reported. */
  ghost predicate DirOk(c: Codec, d: Dir) {
    && (d.wifi.Some? ==> Complete(c, d.wifi.value) && d.wifi.value.record.value.generation >= d.floor)
    && (d.wifi.None? ==> d.floor == 0)
    && (d.forget.Some? ==> Complete(c, d.forget.value))
  }

  datatype Change = NoChange | Committed | RolledBack | Uncertain

  // ---------------------------------------------------------------- what the system calls answer

  /** The steps of atomic_write_at: each may fail. */
  datatype Writing = Writing(safe: bool, created: bool, written: bool, synced: bool, same: bool, moved: bool, dirSynced: bool)

  /** The steps of restore_absence. */
  datatype Removing = Removing(inspected: bool, moved: bool, dirSynced: bool, unlinked: bool, cleaned: bool)

  /** One store operation: reading the present record, then writing or removing one. */
  datatype Io = Io(readable: bool, writing: Writing, removing: Removing)

  /** The steps of egp_store_forget_begin and of egp_store_forget_finish. */
  datatype ForgetIo = ForgetIo(pendingReadable: bool, inspected: bool, liveReadable: bool, moved: bool, dirSynced: bool)
  datatype FinishIo = FinishIo(inspected: bool, unlinked: bool, dirSynced: bool)

  const FINE := Io(true, Writing(true, true, true, true, true, true, true), Removing(true, true, true, true, true))

  /** How far an operation came: refused before its rename, renamed but not known to be durable, or done. */
  datatype Stage = Refused | Unsynced | Done

  datatype Loaded = Present(record: Record) | Absent | Unreadable

  /** load_wifi_path */
  function Loads(c: Codec, file: Option<File>, readable: bool): Loaded {
    if !readable then Unreadable
    else if file.None? then Absent
    else if |file.value.content| > STORE_MAX_BYTES || c.parse(file.value.content).None? then Unreadable
    else Present(c.parse(file.value.content).value)
  }

  function WriteStage(w: Writing, present: bool): Stage {
    if (present && !w.safe) || !w.created || !w.written || !w.synced || !w.same || !w.moved then Refused
    else if w.dirSynced then Done else Unsynced
  }

  function RemoveStage(r: Removing, present: bool): Stage {
    if !r.inspected then Refused
    else if !present then Done
    else if !r.moved then Refused
    else if r.dirSynced && r.unlinked && r.cleaned then Done else Unsynced
  }

  /** The record a candidate becomes. */
  function NextRecord(l: Loaded, candidate: Wifi): Record {
    Record(if l.Present? then l.record.generation + 1 else 1, candidate)
  }

  /** egp_store_replace_wifi */
  function ReplaceStage(c: Codec, wifi: Option<File>, candidate: Wifi, io: Io): Stage {
    var l := Loads(c, wifi, io.readable);
    if !WifiValid(candidate) || l.Unreadable? || (l.Present? && l.record.generation >= Decimal.INT64_MAX) ||
       |c.spell(NextRecord(l, candidate))| > STORE_MAX_BYTES then Refused
    else WriteStage(io.writing, wifi.Some?)
  }

  /** egp_store_restore_wifi, over the file it finds. */
  function RestoreStage(c: Codec, wifi: Option<File>, previous: Option<Record>, io: Io): Stage {
    if previous.None? then RemoveStage(io.removing, wifi.Some?)
    else
      var l := Loads(c, wifi, io.readable);
      if l.Unreadable? || RestoreBase(l, previous.value) >= Decimal.INT64_MAX then Refused
      else WriteStage(io.writing, wifi.Some?)
  }

  function RestoreBase(l: Loaded, previous: Record): nat {
    if l.Present? && l.record.generation > previous.generation then l.record.generation else previous.generation
  }

  /** Everything apply_wifi is given or told on the way. */
  datatype Application = Application(parsed: Option<Wifi>, authorized: bool, replace: Io,
                                     applied: bool, rollbackAllowed: bool, restore: Io, reconciled: bool)

  function Committing(c: Codec, wifi: Option<File>, a: Application): Stage {
    if a.parsed.None? || !a.authorized then Refused else ReplaceStage(c, wifi, a.parsed.value, a.replace)
  }

  /** How far the roll-back comes that follows a commit which could not be applied. */
  function Restoring(c: Codec, wifi: Option<File>, a: Application): Stage
    requires a.parsed.Some?
  {
    var l := Loads(c, wifi, a.replace.readable);
    var next := NextRecord(l, a.parsed.value);
    RestoreStage(c, Some(File(c.spell(next), true, Some(next))), if l.Present? then Some(l.record) else None, a.restore)
  }

  /** The change apply_wifi reports. */
  function Reported(c: Codec, wifi: Option<File>, a: Application): Change {
    match Committing(c, wifi, a)
    case Refused => NoChange
    case Unsynced => Uncertain
    case Done =>
      if a.applied || !a.rollbackAllowed then Committed
      else
        match Restoring(c, wifi, a)
        case Refused => NoChange
        case Unsynced => Uncertain
        case Done => if a.reconciled then RolledBack else Uncertain
  }

  /**
   With every system call working, a valid candidate over a readable record is reported COMMITTED if it was
   applied or may not be rolled back; else ROLLED_BACK, if the roll-back could be applied.
   */
  lemma FineApplication(c: Codec, d: Dir, a: Application)
    requires CodecOk(c) && DirOk(c, d) && a.replace == a.restore == FINE && a.authorized
    requires a.parsed.Some? && WifiValid(a.parsed.value) && !Loads(c, d.wifi, true).Unreadable?
    requires Loads(c, d.wifi, true).Present? ==> Loads(c, d.wifi, true).record.generation < Decimal.INT64_MAX - 1
    requires var next := NextRecord(Loads(c, d.wifi, true), a.parsed.value);
             |c.spell(next)| <= STORE_MAX_BYTES && c.parse(c.spell(next)) == Some(next)
    ensures Reported(c, d.wifi, a) == (if a.applied || !a.rollbackAllowed then Committed
                                       else if a.reconciled then RolledBack else Uncertain)
    ensures !Stranded(c, d.wifi, a)
  {
    hide WifiValid;
  }

  /** A commit that cannot be applied and whose roll-back is refused before its rename. */
  predicate Stranded(c: Codec, wifi: Option<File>, a: Application) {
    Committing(c, wifi, a).Done? && !a.applied && a.rollbackAllowed && Restoring(c, wifi, a).Refused?
  }

  /** When that is: the roll-back of an absence fails before its rename; any other also at the top generation. */
  lemma StrandedWhen(c: Codec, wifi: Option<File>, a: Application)
    requires CodecOk(c) && Committing(c, wifi, a).Done? && !a.applied && a.rollbackAllowed
    ensures Loads(c, wifi, a.replace.readable).Absent? ==>
              (Stranded(c, wifi, a) <==> !a.restore.removing.inspected || !a.restore.removing.moved)
    ensures Loads(c, wifi, a.replace.readable).Present? ==>
              (Stranded(c, wifi, a) <==>
                || !a.restore.readable || c.parse(c.spell(NextRecord(Loads(c, wifi, a.replace.readable), a.parsed.value))).None?
                || Loads(c, wifi, a.replace.readable).record.generation == Decimal.INT64_MAX - 1
                || WriteStage(a.restore.writing, true).Refused?)
  {
    hide WifiValid;
  }

  /**
   No fault is needed for it: over generation INT64_MAX - 1 the candidate commits as INT64_MAX, which no
   roll-back can follow. The report is then NONE, over a changed record.
   */
  lemma TopGeneration() returns (c: Codec, d: Dir, a: Application)
    ensures CodecOk(c) && DirOk(c, d) && a.replace == a.restore == FINE
    ensures d.wifi.Some? && d.wifi.value.record.Some? && d.wifi.value.record.value.generation == Decimal.INT64_MAX - 1
    ensures Committing(c, d.wifi, a) == Done && Stranded(c, d.wifi, a) && Reported(c, d.wifi, a) == NoChange
  {
    var w := Wifi([0x61], "psk", [0x61, 0x61, 0x61, 0x61, 0x61, 0x61, 0x61, 0x61], false);
    assert Utf8.Width([0x61]) == 1 && [0x61][1..] == [];
    assert WifiValid(w);
    var old0, new0 := Record(Decimal.INT64_MAX - 1, w), Record(Decimal.INT64_MAX, w);
    c := Codec(r => if r == old0 then [0] else if r == new0 then [1] else [],
               s => if s == [0] then Some(old0) else if s == [1] then Some(new0) else None);
    d := Dir(Some(File([0], true, Some(old0))), None, None, 0);
    a := Application(Some(w), true, FINE, false, true, FINE, true);
    assert Loads(c, d.wifi, true) == Present(old0);
  }

  /** A record and a tombstone side by side, which no operation of the store expects. */
  predicate Conflict(d: Dir) {
    d.wifi.Some? && d.forget.Some?
  }

  /** Whether egp_store_forget_begin succeeds. */
  predicate Prepares(c: Codec, d: Dir, io: ForgetIo) {
    if d.forget.Some? then Loads(c, d.forget, io.pendingReadable).Present? && d.wifi.None? && io.inspected
    else
      && io.pendingReadable && !Loads(c, d.wifi, io.liveReadable).Unreadable?
      && (d.wifi.Some? ==> io.moved && io.dirSynced)
  }

  /** Whether egp_store_forget_finish does. */
  predicate Finishes(d: Dir, io: FinishIo) {
    io.inspected && (d.forget.Some? ==> io.unlinked && io.dirSynced)
  }

  datatype Deed =
    | Apply(application: Application)
    | Forget(authorized: bool, begin: ForgetIo, revoked: bool, finish: FinishIo)
    | Reconcile(pending: ForgetIo, connman: bool, finish: FinishIo)
    | Replace(candidate: Wifi, io: Io)          // the parts of the two operations, for a crash in between
    | Restore(previous: Option<Record>, io: Io)
    | Crash(survivor: nat, unlinks: bool, dirSynced: bool)

  class Store {
    const codec: Codec
    var dir: Dir
    var temporary: Option<File>
    /** History: every state the directory has been in; a crash may leave any of seen[syncedAt..]. */
    var seen: seq<Dir>
    var syncedAt: nat

    ghost predicate Valid()
      reads this
    {
      && CodecOk(codec) && syncedAt < |seen| && dir == seen[|seen| - 1]
      && forall k :: 0 <= k < |seen| ==> DirOk(codec, seen[k])
    }

    /** The present state, and no other, survives a crash. */
    ghost predicate Durable()
      reads this
    {
      syncedAt + 1 == |seen|
    }

    constructor (codec: Codec)
      requires CodecOk(codec)
      ensures Valid() && Durable() && dir == Dir(None, None, None, 0) && this.codec == codec
    {
      this.codec, dir, temporary := codec, Dir(None, None, None, 0), None;
      seen, syncedAt := [Dir(None, None, None, 0)], 0;
    }

    /** One system call that changes the directory. */
    method Become(d: Dir)
      requires Valid() && DirOk(codec, d)
      modifies this`dir, this`seen
      ensures Valid() && dir == d && seen == old(seen) + [d]
    {
      dir, seen := d, seen + [d];
    }

    /** fsync on the directory. */
    method SyncDir(ok: bool)
      requires Valid()
      modifies this`syncedAt
      ensures Valid() && old(syncedAt) <= syncedAt && (if ok then Durable() else syncedAt == old(syncedAt))
    {
      if ok {
        syncedAt := |seen| - 1;
      }
    }

    /** Since then every state had this tombstone, or none. */
    ghost predicate Beside(forget: Option<File>, from: nat)
      reads this
    {
      forall k :: from <= k < |seen| ==> seen[k].forget == forget
    }

    /** Since then no state was without wifi.json. */
    ghost predicate WifiSince(from: nat)
      reads this
    {
      forall k :: from <= k < |seen| ==> seen[k].wifi.Some?
    }

    /** Note in the history that the present record has been reported. */
    method Report()
      requires Valid() && Durable() && dir.wifi.Some?
      modifies this`dir, this`seen, this`syncedAt
      ensures Valid() && Durable() && old(seen) <= seen && old(syncedAt) <= syncedAt && dir.wifi.Some? && dir.wifi.value.record.Some?
      ensures dir == old(dir).(floor := dir.wifi.value.record.value.generation) && seen == old(seen) + [dir]
    {
      hide WifiValid;
      dir := dir.(floor := dir.wifi.value.record.value.generation);
      seen := seen + [dir];
      syncedAt := |seen| - 1;
    }

    /** A complete file that can be read holds the record it was printed from. */
    lemma ReadsItself(file: Option<File>, readable: bool)
      requires CodecOk(codec) && (file.Some? ==> Complete(codec, file.value)) && Loads(codec, file, readable).Present?
      ensures file.Some? && file.value.record == Some(Loads(codec, file, readable).record)
      ensures Storable(Loads(codec, file, readable).record)
    {
      assert file.value.content == codec.spell(file.value.record.value);
    }

    /** The temporary file: created, written piece by piece, synced, read back, closed. */
    method WriteTemporary(r: Record, bytes: seq<byte>, w: Writing) returns (ok: bool)
      modifies this`temporary
      ensures ok <==> w.created && w.written && w.synced && w.same
      ensures ok ==> temporary == Some(File(bytes, true, Some(r)))
    {
      if !w.created {
        return false;
      }
      temporary := Some(File([], false, None));
      var written := 0;
      while written < |bytes|
        invariant 0 <= written <= |bytes| && temporary == Some(File(bytes[..written], false, None))
      {
        var count: int := *;
        if !w.written && (count <= 0 || count > |bytes| - written) {
          return false;
        }
        count := if count <= 0 || count > |bytes| - written then |bytes| - written else count;
        written := written + count;
        temporary := Some(File(bytes[..written], false, None));
      }
      if !w.written || !w.synced || !w.same {
        return false;
      }
      assert bytes[..|bytes|] == bytes;
      temporary := Some(File(bytes, true, Some(r)));
      ok := true;
    }

    /** atomic_write_at on wifi.json. A failure after the rename is uncertain. */
    method AtomicWrite(r: Record, w: Writing) returns (stage: Stage)
      requires Valid() && Storable(r) && r.generation >= dir.floor
      modifies this
      ensures Valid() && old(seen) <= seen && old(syncedAt) <= syncedAt && stage == WriteStage(w, old(dir).wifi.Some?)
      ensures !stage.Refused? ==> dir == old(dir).(wifi := Some(File(codec.spell(r), true, Some(r))))
      ensures stage.Refused? ==> dir == old(dir) && seen == old(seen) && syncedAt == old(syncedAt)
      ensures stage.Done? ==> Durable()
      ensures Beside(old(dir).forget, |old(seen)|) && WifiSince(|old(seen)|)
    {
      if dir.wifi.Some? && !w.safe {
        return Refused;
      }
      var bytes := codec.spell(r);
      var ok := WriteTemporary(r, bytes, w);
      if !ok || !w.moved {
        temporary := None;
        return Refused;
      }
      Become(dir.(wifi := temporary));
      temporary := None;
      SyncDir(w.dirSynced);
      stage := if w.dirSynced then Done else Unsynced;
    }

    /** egp_store_replace_wifi */
    method ReplaceWifi(candidate: Wifi, io: Io) returns (stage: Stage, previous: Option<Record>)
      requires Valid()
      modifies this
      ensures Valid() && old(seen) <= seen && old(syncedAt) <= syncedAt && stage == ReplaceStage(codec, old(dir).wifi, candidate, io)
      ensures stage.Refused? ==> dir == old(dir)
      ensures !stage.Refused? ==> WifiValid(candidate) && Holds(candidate)
      ensures stage.Done? ==> Durable() && Replaced(old(dir), dir, previous)
      ensures !stage.Refused? ==> Renewed(old(dir).wifi, io.readable, candidate, previous)
      ensures Beside(old(dir).forget, |old(seen)|) && WifiSince(|old(seen)|)
    {
      hide WifiValid;
      previous := None;
      if !WifiValid(candidate) {
        return Refused, None;
      }
      var loaded := Loads(codec, dir.wifi, io.readable);
      if loaded.Unreadable? {
        return Refused, None;
      }
      if loaded.Present? {
        ReadsItself(dir.wifi, io.readable);
        previous := Some(loaded.record);
        if loaded.record.generation >= Decimal.INT64_MAX {
          return Refused, previous;
        }
      }
      var next := Record(if previous.Some? then previous.value.generation + 1 else 1, candidate);
      if |codec.spell(next)| > STORE_MAX_BYTES {
        return Refused, previous;
      }
      stage := AtomicWrite(next, io.writing);
      if stage.Done? {
        Report();
      }
    }

    /** The file now spells the candidate's next record, and `previous` is what was read before. */
    ghost predicate Renewed(before: Option<File>, readable: bool, candidate: Wifi, previous: Option<Record>)
      reads this
    {
      var l := Loads(codec, before, readable);
      && !l.Unreadable? && previous == (if l.Present? then Some(l.record) else None)
      && dir.wifi == Some(File(codec.spell(NextRecord(l, candidate)), true, Some(NextRecord(l, candidate))))
    }

    /** restore_absence: rename away, sync, unlink, sync. */
    method RestoreAbsence(r: Removing) returns (stage: Stage)
      requires Valid()
      modifies this
      ensures Valid() && old(seen) <= seen && old(syncedAt) <= syncedAt && stage == RemoveStage(r, old(dir).wifi.Some?)
      ensures stage.Done? ==> dir.wifi.None? && (old(dir).wifi.Some? ==> Durable())
      ensures stage.Unsynced? ==> dir.wifi.None?
      ensures stage.Refused? ==> dir == old(dir)
      ensures Beside(old(dir).forget, |old(seen)|)
    {
      hide WifiValid;
      if !r.inspected {
        return Refused;
      }
      if dir.wifi.None? {
        return Done;
      }
      if !r.moved {
        return Refused;
      }
      Become(dir.(wifi := None, rollback := dir.wifi, floor := 0));
      SyncDir(r.dirSynced);
      if !r.dirSynced || !r.unlinked {
        return Unsynced;
      }
      Become(dir.(rollback := None));
      SyncDir(r.cleaned);
      stage := if r.cleaned then Done else Unsynced;
    }

    /** egp_store_restore_wifi */
    method RestoreWifi(previous: Option<Record>, io: Io) returns (stage: Stage)
      requires Valid() && (previous.Some? ==> Storable(previous.value))
      modifies this
      ensures Valid() && old(seen) <= seen && old(syncedAt) <= syncedAt && stage == RestoreStage(codec, old(dir).wifi, previous, io)
      ensures stage.Refused? ==> dir == old(dir)
      ensures stage.Done? && previous.None? ==> dir.wifi.None? && (old(dir).wifi.Some? ==> Durable())
      ensures stage.Done? && previous.Some? ==>
                Durable() && Holds(previous.value.wifi) && dir.floor == dir.wifi.value.record.value.generation > old(dir).floor
      ensures Beside(old(dir).forget, |old(seen)|) && (previous.Some? ==> WifiSince(|old(seen)|))
    {
      hide WifiValid;
      if previous.None? {
        stage := RestoreAbsence(io.removing);
        return;
      }
      var loaded := Loads(codec, dir.wifi, io.readable);
      if loaded.Unreadable? {
        return Refused;
      }
      var base := previous.value.generation;
      if loaded.Present? {
        ReadsItself(dir.wifi, io.readable);
        base := if loaded.record.generation > base then loaded.record.generation else base;
      }
      if base >= Decimal.INT64_MAX {
        return Refused;
      }
      stage := AtomicWrite(previous.value.(generation := base + 1), io.writing);
      if stage.Done? {
        Report();
      }
    }

    /**
     egp_store_forget_begin: a tombstone is taken up again unless wifi.json is there as well; without one,
     wifi.json becomes it.
     */
    method ForgetBegin(io: ForgetIo) returns (ok: bool, change: Change, hadWifi: bool)
      requires Valid()
      modifies this
      ensures Valid() && old(seen) <= seen && old(syncedAt) <= syncedAt
      ensures ok <==> Prepares(codec, old(dir), io)
      ensures ok ==> dir.wifi.None? && (hadWifi <==> dir.forget.Some?) && (change == Committed <==> old(dir).wifi.Some?)
      ensures ok && change == Committed ==> Durable() && dir.forget == old(dir).wifi
      ensures ok && change != Committed ==> change == NoChange && dir == old(dir) && Durable() == old(Durable())
      ensures !ok && change == NoChange ==> dir == old(dir) && seen == old(seen) && syncedAt == old(syncedAt)
      ensures !ok ==> change == NoChange || change == Uncertain
      ensures change == Uncertain ==> old(dir).forget.None? && dir == old(dir).(wifi := None, forget := old(dir).wifi, floor := 0)
      ensures forall k :: |old(seen)| <= k < |seen| ==> seen[k].wifi.None?
    {
      hadWifi := false;
      var pending := Loads(codec, dir.forget, io.pendingReadable);
      if pending.Unreadable? {
        return false, NoChange, false;
      }
      if pending.Present? {
        if dir.wifi.Some? || !io.inspected {
          return false, NoChange, false;
        }
        return true, NoChange, true;
      }
      var live := Loads(codec, dir.wifi, io.liveReadable);
      if live.Unreadable? {
        return false, NoChange, false;
      }
      if live.Absent? {
        return true, NoChange, false;
      }
      if !io.moved {
        return false, NoChange, true;
      }
      Become(dir.(wifi := None, forget := dir.wifi, floor := 0));
      hadWifi := true;
      SyncDir(io.dirSynced);
      ok := io.dirSynced;
      change := if ok then Committed else Uncertain;
    }

    /** egp_store_forget_finish */
    method ForgetFinish(io: FinishIo) returns (ok: bool, change: Change)
      requires Valid()
      modifies this
      ensures Valid() && old(seen) <= seen && old(syncedAt) <= syncedAt
      ensures ok <==> Finishes(old(dir), io)
      ensures ok ==> dir.forget.None? && (old(dir).forget.Some? ==> Durable())
      ensures dir.wifi == old(dir).wifi && (dir.forget == old(dir).forget || dir.forget.None?)
      ensures !ok && change == NoChange ==> dir == old(dir)
      ensures forall k :: |old(seen)| <= k < |seen| ==> seen[k].wifi == old(dir).wifi
    {
      if !io.inspected {
        return false, NoChange;
      }
      if dir.forget.None? {
        return true, Committed;
      }
      if !io.unlinked {
        return false, NoChange;
      }
      Become(dir.(forget := None));
      SyncDir(io.dirSynced);
      ok := io.dirSynced;
      change := if ok then Committed else Uncertain;
    }

    /** A power loss, and egp_store_open's sweep of temporary files afterwards. */
    method CrashAndOpen(survivor: Dir, unlinks: bool, dirSynced: bool) returns (ok: bool)
      requires Valid() && survivor in seen[syncedAt..]
      modifies this
      ensures Valid() && old(seen) <= seen && old(syncedAt) <= syncedAt && (ok <==> unlinks && dirSynced)
      ensures ok ==> temporary.None? && dir.rollback.None? && Durable()
      ensures forall k :: |old(seen)| <= k < |seen| ==> seen[k].wifi == survivor.wifi && seen[k].forget == survivor.forget
      ensures dir.wifi == survivor.wifi && dir.forget == survivor.forget && syncedAt >= |old(seen)|
    {
      hide WifiValid;
      // every named file was synced before it got its name, so no content is torn
      assert DirOk(codec, survivor);
      assert (survivor.wifi.Some? ==> survivor.wifi.value.synced) && (survivor.forget.Some? ==> survivor.forget.value.synced);
      dir := survivor;
      seen := seen + [dir];
      syncedAt := |seen| - 1;
      if !unlinks {
        return false;
      }
      temporary := None;
      Become(dir.(rollback := None));
      SyncDir(dirSynced);
      ok := dirSynced;
    }

    /** forget_wifi: egp_store_forget_begin, revocation, egp_store_forget_finish. */
    method ForgetWifi(authorized: bool, begin: ForgetIo, revoked: bool, finish: FinishIo) returns (ok: bool)
      requires Valid()
      modifies this
      ensures Valid() && old(seen) <= seen && old(syncedAt) <= syncedAt
      ensures ok <==>
                && authorized && Prepares(codec, old(dir), begin) && revoked
                && (old(dir).wifi.Some? || old(dir).forget.Some? ==> finish.inspected && finish.unlinked && finish.dirSynced)
      ensures ok ==> dir.wifi.None? && dir.forget.None?
      ensures ok && (old(dir).wifi.Some? || old(dir).forget.Some?) ==> Durable()
      ensures authorized && Prepares(codec, old(dir), begin) && !revoked ==>
                && dir.wifi.None? && dir.forget == (if old(dir).wifi.Some? then old(dir).wifi else old(dir).forget)
                && (old(dir).wifi.Some? ==> Durable())
      ensures Conflict(old(dir)) ==> dir == old(dir) && seen == old(seen) && syncedAt == old(syncedAt)
      ensures forall k :: |old(seen)| <= k < |seen| ==> seen[k].wifi.None?
    {
      ok := false;
      if !authorized {
        return;
      }
      var begun, change, hadWifi := ForgetBegin(begin);
      if !begun || !revoked {
        return;
      }
      ok := true;
      if hadWifi {
        ok, change := ForgetFinish(finish);
      }
    }

    /** reconcile_canonical: a pending forget is completed, or else the stored record is applied again. */
    method Reconcile(io: ForgetIo, connman: bool, finish: FinishIo) returns (ok: bool)
      requires Valid()
      modifies this
      ensures Valid() && old(seen) <= seen && old(syncedAt) <= syncedAt
      ensures ok <==>
                if old(dir).forget.Some? then Prepares(codec, old(dir), io) && connman && Finishes(old(dir), finish)
                else io.pendingReadable && !Loads(codec, old(dir).wifi, io.liveReadable).Unreadable? && connman
      ensures ok ==> dir.forget.None? && dir.wifi == old(dir).wifi && (old(dir).forget.Some? ==> Durable() && dir.wifi.None?)
      ensures Conflict(old(dir)) || old(dir).forget.None? ==> dir == old(dir) && seen == old(seen) && syncedAt == old(syncedAt)
      ensures forall k :: |old(seen)| <= k < |seen| ==> seen[k].wifi.None?
    {
      var pending := Loads(codec, dir.forget, io.pendingReadable);
      if pending.Unreadable? {
        return false;
      }
      if pending.Present? {
        if dir.wifi.Some? || !io.inspected || !connman {
          return false;
        }
        var change;
        ok, change := ForgetFinish(finish);
        return;
      }
      var live := Loads(codec, dir.wifi, io.liveReadable);
      ok := !live.Unreadable? && connman;
    }

    /**
     apply_wifi. COMMITTED: the record is the candidate. ROLLED_BACK: its content is what it was.
     NONE means an unchanged disk except when the application is stranded.
     */
    method ApplyWifi(a: Application) returns (change: Change)
      requires Valid()
      modifies this
      ensures Valid() && old(seen) <= seen && old(syncedAt) <= syncedAt && change == Reported(codec, old(dir).wifi, a)
      ensures change == Committed ==> a.parsed.Some? && Holds(a.parsed.value) && Durable()
      ensures change == Committed ==>
                dir.wifi.value.record.value == NextRecord(Loads(codec, old(dir).wifi, a.replace.readable), a.parsed.value)
      ensures change == Committed ==> dir.floor == dir.wifi.value.record.value.generation > old(dir).floor
      ensures change == RolledBack ==> Durable() && (old(dir).wifi.None? <==> dir.wifi.None?)
      ensures change == RolledBack && dir.wifi.Some? ==> old(dir).wifi.value.record.Some? && Holds(old(dir).wifi.value.record.value.wifi)
      ensures change == NoChange && dir != old(dir) <==> Stranded(codec, old(dir).wifi, a)
      ensures Stranded(codec, old(dir).wifi, a) ==> Holds(a.parsed.value)
      ensures dir.forget == old(dir).forget && Beside(old(dir).forget, |old(seen)|)
      ensures old(dir).wifi.Some? ==> dir.wifi.Some? && WifiSince(|old(seen)|)
    {
      hide WifiValid;
      change := NoChange;
      if a.parsed.None? || !a.authorized {
        return;
      }
      var stage, previous := ReplaceWifi(a.parsed.value, a.replace);
      if stage.Refused? {
        return NoChange;
      }
      if stage.Unsynced? {
        return Uncertain;
      }
      if a.applied || !a.rollbackAllowed {
        return Committed;
      }
      PreviousStorable(old(dir), previous);
      stage := RestoreWifi(previous, a.restore);
      change := match stage
        case Refused => NoChange
        case Unsynced => Uncertain
        case Done => if a.reconciled then RolledBack else Uncertain;
    }

    /**
     Any life of the store: operations, or only parts of them, and crashes in any order. Every state the
     directory passes through is sound.
     */
    method Live(deeds: seq<Deed>)
      requires Valid()
      modifies this
      ensures Valid() && old(seen) <= seen && old(syncedAt) <= syncedAt
      ensures forall k :: 0 <= k < |seen| ==> seen[k].wifi.Some? ==> Complete(codec, seen[k].wifi.value)
    {
      for i := 0 to |deeds|
        invariant Valid() && old(seen) <= seen && old(syncedAt) <= syncedAt
      {
        match deeds[i] {
          case Apply(application) =>
            var change := ApplyWifi(application);
          case Forget(authorized, begin, revoked, finish) =>
            var ok := ForgetWifi(authorized, begin, revoked, finish);
          case Reconcile(io, connman, finish) =>
            var ok := this.Reconcile(io, connman, finish);
          case Replace(candidate, io) =>
            var stage, previous := ReplaceWifi(candidate, io);
          case Restore(previous, io) =>
            if previous.None? || Storable(previous.value) {
              var stage := RestoreWifi(previous, io);
            }
          case Crash(choice, unlinks, dirSynced) =>
            if syncedAt <= choice < |seen| {
              var ok := CrashAndOpen(seen[choice], unlinks, dirSynced);
            }
        }
      }
    }

    lemma PreviousStorable(before: Dir, previous: Option<Record>)
      requires DirOk(codec, before) && (previous.Some? ==> before.wifi.Some? && before.wifi.value.record == previous)
      ensures previous.Some? ==> Storable(previous.value)
    {
    }

    /** The present record is this configuration. */
    ghost predicate Holds(w: Wifi)
      reads this
    {
      && dir.wifi.Some? && dir.wifi.value.record.Some? && dir.wifi.value.record.value.wifi == w
      && Complete(codec, dir.wifi.value)
    }

    /** A commit raises the generation above every one reported since wifi.json was last absent. */
    ghost predicate Replaced(before: Dir, after: Dir, previous: Option<Record>)
      reads this
    {
      && after.wifi.Some? && after.wifi.value.record.Some?
      && var g := after.wifi.value.record.value.generation;
         && after.floor == g <= Decimal.INT64_MAX && g > before.floor
         && (previous.Some? <==> before.wifi.Some?)
         && (previous.Some? ==> before.wifi.value.record == previous && g == previous.value.generation + 1)
         && (previous.None? ==> g == 1)
    }
  }
}
