/**
 The native A/B metadata record (edgeguard-rk-abctl.c): 32 bytes at offset 2048 of the misc
 partition, its validator, its three mutations and the primary selector.
 */
module AbMetadata {
  import opened Crc32

  const AB_OFFSET := 2048
  const AB_SIZE := 32
  const MAX_PRIORITY: byte := 15
  const MAX_TRIES: byte := 7

  type Record = d: seq<byte> | |d| == AB_SIZE witness seq(AB_SIZE, i => 0)

  // Field offsets of struct ab_data.
  const MAGIC: seq<byte> := [0x00, 0x41, 0x42, 0x30]
  const MAJOR := 4
  const MINOR := 5
  const LAST_BOOT := 16
  const CRC := 28

  type SlotIndex = i: int | 0 <= i < 2

  function PriorityAt(slot: SlotIndex): int { 8 + 4 * slot }
  function TriesAt(slot: SlotIndex): int { 9 + 4 * slot }
  function SuccessAt(slot: SlotIndex): int { 10 + 4 * slot }
  function FlagsAt(slot: SlotIndex): int { 11 + 4 * slot }

  /** load_be32. */
  function LoadBe32(p: seq<byte>): word
    requires |p| == 4
  {
    (p[0] as word << 24) | (p[1] as word << 16) | (p[2] as word << 8) | (p[3] as word)
  }

  function Be32(v: word): (p: seq<byte>)
    ensures |p| == 4
  {
    [((v >> 24) & 0xff) as byte, ((v >> 16) & 0xff) as byte, ((v >> 8) & 0xff) as byte, (v & 0xff) as byte]
  }

  lemma LoadOfStore(v: word)
    ensures LoadBe32(Be32(v)) == v
  {
  }

  /** The first byte is the most significant one. */
  lemma LoadIsBigEndian(p: seq<byte>)
    requires |p| == 4
    ensures var v := LoadBe32(p);
      v >> 24 == p[0] as word && (v >> 16) & 0xff == p[1] as word && (v >> 8) & 0xff == p[2] as word && v & 0xff == p[3] as word
  {
    WordIsBytes(p[0], p[1], p[2], p[3]);
  }

  lemma WordIsBytes(a: byte, b: byte, c: byte, d: byte)
    ensures var v := (a as word << 24) | (b as word << 16) | (c as word << 8) | (d as word);
      v >> 24 == a as word && (v >> 16) & 0xff == b as word && (v >> 8) & 0xff == c as word && v & 0xff == d as word
  {
  }

  lemma LoadInjective(p: seq<byte>, q: seq<byte>)
    requires |p| == |q| == 4
    ensures LoadBe32(p) == LoadBe32(q) <==> p == q
  {
    FourBytes(p[0], p[1], p[2], p[3], q[0], q[1], q[2], q[3]);
  }

  lemma FourBytes(a: byte, b: byte, c: byte, d: byte, e: byte, f: byte, g: byte, h: byte)
    ensures ((a as word << 24) | (b as word << 16) | (c as word << 8) | (d as word)
          == (e as word << 24) | (f as word << 16) | (g as word << 8) | (h as word))
      ==> (a == e && b == f && c == g && d == h)
  {
  }

  predicate Bootable(d: Record, slot: SlotIndex) {
    d[PriorityAt(slot)] > 0 && (d[SuccessAt(slot)] != 0 || d[TriesAt(slot)] > 0)
  }

  predicate FieldsInRange(d: Record, slot: SlotIndex) {
    d[PriorityAt(slot)] <= MAX_PRIORITY && d[TriesAt(slot)] <= MAX_TRIES && d[SuccessAt(slot)] <= 1
  }

  /** What validate() accepts, apart from the checksum. */
  predicate WellFormed(d: Record) {
    && d[..4] == MAGIC && d[MAJOR] == 1 && d[MINOR] == 0
    && FieldsInRange(d, 0) && FieldsInRange(d, 1) && d[LAST_BOOT] <= 1
  }

  predicate Sealed(d: Record) {
    LoadBe32(d[CRC..]) == Crc(d[..CRC])
  }

  /** Any single damaged byte, in the covered part or in the stored checksum, breaks the seal. */
  lemma DamageDetected(d: Record, e: Record, i: nat)
    requires Sealed(d) && i < AB_SIZE && e[i] != d[i]
    requires forall j :: 0 <= j < AB_SIZE && j != i ==> e[j] == d[j]
    ensures !Sealed(e)
  {
    hide LoadBe32, Crc;
    if i < CRC {
      assert e[CRC..] == d[CRC..];
      assert d[..CRC] == d[..i] + [d[i]] + d[i + 1..CRC];
      assert e[..CRC] == d[..i] + [e[i]] + d[i + 1..CRC];
      assert [d[i]][0] != [e[i]][0];
      BurstDetected(d[..i], [d[i]], [e[i]], d[i + 1..CRC]);
    } else {
      assert e[..CRC] == d[..CRC];
      assert e[CRC..][i - CRC] != d[CRC..][i - CRC];
      LoadInjective(e[CRC..], d[CRC..]);
    }
  }

  // ---------------------------------------------------------------- mutations

  datatype Mutation = SetPrimary | MarkBad | MarkGood

  /** primary_slot: B wins only with a strictly higher priority. */
  function PrimarySlot(d: Record): int {
    if !Bootable(d, 0) && !Bootable(d, 1) then -1
    else if !Bootable(d, 1) then 0
    else if !Bootable(d, 0) then 1
    else if d[PriorityAt(1)] > d[PriorityAt(0)] then 1 else 0
  }

  datatype NativeState = ConfirmedGood | Pending | Bad | Inconsistent

  /** native_state. */
  function Native(d: Record, slot: SlotIndex): NativeState {
    var p, t, s := d[PriorityAt(slot)], d[TriesAt(slot)], d[SuccessAt(slot)];
    if p > 0 && t == 0 && s == 1 && Bootable(d, slot) then ConfirmedGood
    else if p > 0 && t > 0 && s == 0 && Bootable(d, slot) then Pending
    else if p == 0 && t == 0 && s == 0 && !Bootable(d, slot) then Bad
    else Inconsistent
  }

  predicate IsValid(d: Record) {
    WellFormed(d) && Sealed(d)
  }

  /** When a mutation of a valid record is carried out; `current` is the verified running slot. */
  predicate Allowed(op: Mutation, slot: SlotIndex, current: SlotIndex, d: Record) {
    match op
    case SetPrimary => true
    case MarkBad => Bootable(d, 1 - slot)
    case MarkGood => slot == current && Bootable(d, slot)
  }

  /** The bytes a mutation may touch, besides the checksum. */
  function Named(op: Mutation, slot: SlotIndex): set<int> {
    var s := {PriorityAt(slot), TriesAt(slot), SuccessAt(slot)};
    match op
    case SetPrimary => s + {PriorityAt(1 - slot)}
    case MarkBad => s
    case MarkGood => s + {FlagsAt(slot), LAST_BOOT}
  }

  predicate SlotSet(e: Record, slot: SlotIndex, priority: byte, tries: byte, successful: byte) {
    e[PriorityAt(slot)] == priority && e[TriesAt(slot)] == tries && e[SuccessAt(slot)] == successful
  }

  /** `e` is `d` after the mutation: the named fields as required, every other byte as it was. */
  predicate Changed(op: Mutation, slot: SlotIndex, d: Record, e: Record) {
    && (forall i :: 0 <= i < CRC && i !in Named(op, slot) ==> e[i] == d[i])
    && (match op
        case SetPrimary =>
          && SlotSet(e, slot, MAX_PRIORITY, MAX_TRIES, 0)
          && e[PriorityAt(1 - slot)] == (if d[PriorityAt(1 - slot)] == MAX_PRIORITY then 14 else d[PriorityAt(1 - slot)])
        case MarkBad => SlotSet(e, slot, 0, 0, 0)
        case MarkGood =>
          && SlotSet(e, slot, MAX_PRIORITY, 0, 1)
          && e[FlagsAt(slot)] == d[FlagsAt(slot)] & 0xfe
          && e[LAST_BOOT] == (if slot == 0 then 0 else 1))
  }

  /** A carried-out mutation leaves the record well formed, bootable and in the native states. */
  lemma MutationKeeps(op: Mutation, slot: SlotIndex, current: SlotIndex, d: Record, e: Record)
    requires WellFormed(d) && Allowed(op, slot, current, d) && Changed(op, slot, d, e)
    ensures WellFormed(e) && (Bootable(e, 0) || Bootable(e, 1))
    ensures Native(d, 0) != Inconsistent && Native(d, 1) != Inconsistent ==>
              Native(e, 0) != Inconsistent && Native(e, 1) != Inconsistent
    ensures Native(e, slot) == match op case SetPrimary => Pending case MarkBad => Bad case MarkGood => ConfirmedGood
    ensures Native(e, 1 - slot) == Native(d, 1 - slot)
  {
    assert e[..4] == d[..4];
  }

  /** Set-primary makes its slot primary, and mark-bad the other one. */
  lemma MutationPicks(op: Mutation, slot: SlotIndex, current: SlotIndex, d: Record, e: Record)
    requires WellFormed(d) && Allowed(op, slot, current, d) && Changed(op, slot, d, e)
    ensures op == SetPrimary ==> PrimarySlot(e) == slot
    ensures op == MarkBad ==> PrimarySlot(e) == 1 - slot
    ensures op == MarkGood ==>
              (PrimarySlot(e) == slot <==>
               slot == 0 || !Bootable(d, 0) || d[PriorityAt(0)] < MAX_PRIORITY)
  {
  }

  // ---------------------------------------------------------------- runs

  datatype Step = Step(op: Mutation, slot: SlotIndex, current: SlotIndex)

  /** Records reached one after the other by carried-out mutations. */
  predicate Trace(records: seq<Record>, steps: seq<Step>) {
    && |records| == |steps| + 1
    && forall i :: 0 <= i < |steps| ==> Takes(records[i], steps[i], records[i + 1])
  }

  predicate Takes(d: Record, s: Step, e: Record) {
    Allowed(s.op, s.slot, s.current, d) && Changed(s.op, s.slot, d, e) && Sealed(e)
  }

  /** The bytes no mutation ever touches. */
  const FIXED: set<int> := set i | 0 <= i < CRC && i !in {8, 9, 10, 11, 12, 13, 14, 15, 16}

  /** Over every run of mutations from a valid record. */
  lemma {:induction false} TraceKeeps(records: seq<Record>, steps: seq<Step>)
    requires Trace(records, steps) && IsValid(records[0])
    ensures var last := records[|steps|];
            && IsValid(last)
            && (steps != [] ==> Bootable(last, 0) || Bootable(last, 1))
            && (Native(records[0], 0) != Inconsistent && Native(records[0], 1) != Inconsistent ==>
                  Native(last, 0) != Inconsistent && Native(last, 1) != Inconsistent)
            && (forall i :: i in FIXED ==> last[i] == records[0][i])
            && (forall slot: SlotIndex :: last[FlagsAt(slot)] | 1 == records[0][FlagsAt(slot)] | 1)
  {
    hide Crc, LoadBe32;
    var n := |steps|;
    if n > 0 {
      TraceKeeps(records[..n], steps[..n - 1]);
      var s := steps[n - 1];
      MutationKeeps(s.op, s.slot, s.current, records[n - 1], records[n]);
      FixedKept(s.op, s.slot, records[n - 1], records[n]);
    }
  }

  /** A slot is confirmed only while it runs, gives up its chance only to a bootable peer, and is tried only when it was chosen. */
  lemma StatesAreEarned(d: Record, s: Step, e: Record, x: SlotIndex)
    requires WellFormed(d) && Takes(d, s, e) && Native(e, x) != Native(d, x)
    ensures s.slot == x
    ensures Native(e, x) == ConfirmedGood ==> s.op == MarkGood && s.current == x && Bootable(d, x)
    ensures Native(e, x) == Bad ==> s.op == MarkBad && Bootable(d, 1 - x)
    ensures Native(e, x) == Pending ==> s.op == SetPrimary
    ensures Native(e, x) != Inconsistent
  {
    hide Sealed;
    MutationKeeps(s.op, s.slot, s.current, d, e);
  }

  lemma FixedKept(op: Mutation, slot: SlotIndex, d: Record, e: Record)
    requires Changed(op, slot, d, e)
    ensures forall i :: i in FIXED ==> e[i] == d[i]
    ensures forall s: SlotIndex :: e[FlagsAt(s)] | 1 == d[FlagsAt(s)] | 1
  {
    FlagBits(d[FlagsAt(slot)]);
  }

  lemma FlagBits(b: byte)
    ensures (b & 0xfe) | 1 == b | 1
  {
  }

  // ---------------------------------------------------------------- the partition

  /** Nothing but the record's bytes changed. */
  ghost predicate Elsewhere(was: seq<byte>, bytes: seq<byte>) {
    && |bytes| == |was|
    && forall i :: 0 <= i < |bytes| && !(AB_OFFSET <= i < AB_OFFSET + AB_SIZE) ==> bytes[i] == was[i]
  }

  /** A partition left alone is its record laid over itself. */
  lemma LeftAlone(bytes: seq<byte>)
    ensures Elsewhere(bytes, bytes)
    ensures |bytes| >= AB_OFFSET + AB_SIZE ==> bytes == Overwrite(bytes, bytes[AB_OFFSET..AB_OFFSET + AB_SIZE])
  {
  }

  /** `bytes` with `part` written at the record's offset. */
  function Overwrite(bytes: seq<byte>, part: seq<byte>): seq<byte>
    requires AB_OFFSET + |part| <= |bytes|
  {
    bytes[..AB_OFFSET] + part + bytes[AB_OFFSET + |part|..]
  }

  /** validate(), with the checksum computed by the loop. */
  method Validate(d: array<byte>) returns (rc: int)
    requires d.Length == AB_SIZE
    ensures rc == if IsValid(d[..]) then 0 else -1
  {
    hide LoadBe32, Crc;
    if d[..4] != MAGIC || d[MAJOR] != 1 || d[MINOR] != 0 {
      assert d[..][..4] == d[..4];
      return -1;
    }
    assert d[..][..4] == d[..4];
    var calculated := Crc32Ieee(d[..CRC]);
    assert d[..][..CRC] == d[..CRC] && d[..][CRC..] == d[CRC..];
    if LoadBe32(d[CRC..]) != calculated {
      return -1;
    }
    for i := 0 to 2
      invariant forall s: SlotIndex :: s < i ==> FieldsInRange(d[..], s)
    {
      var slot: SlotIndex := i;
      if d[PriorityAt(slot)] > MAX_PRIORITY || d[TriesAt(slot)] > MAX_TRIES || d[SuccessAt(slot)] > 1 {
        return -1;
      }
    }
    return if d[LAST_BOOT] > 1 then -1 else 0;
  }

  /** How the system calls of one mutation go: whether each works, and how many bytes are written. */
  datatype Io = Io(read: bool, wrote: int, synced: bool, readBack: bool)

  class Misc {
    var bytes: seq<byte>

    constructor (bytes: seq<byte>)
      ensures this.bytes == bytes
    {
      this.bytes := bytes;
    }

    ghost predicate HoldsRecord()
      reads this
    {
      |bytes| >= AB_OFFSET + AB_SIZE
    }

    /** The record on the partition. */
    ghost function Stored(): Record
      requires HoldsRecord()
      reads this
    {
      bytes[AB_OFFSET..AB_OFFSET + AB_SIZE]
    }

    /** read_exact. */
    method ReadExact(d: array<byte>, works: bool) returns (rc: int)
      requires d.Length == AB_SIZE
      modifies d
      ensures rc == 0 ==> HoldsRecord() && d[..] == Stored()
      ensures rc == if works && HoldsRecord() then 0 else -1
    {
      if !works || |bytes| < AB_OFFSET + AB_SIZE {
        return -1;
      }
      forall i | 0 <= i < AB_SIZE {
        d[i] := bytes[AB_OFFSET + i];
      }
      rc := 0;
    }

    /** open_and_read. */
    method OpenAndRead(d: array<byte>, works: bool) returns (rc: int)
      requires d.Length == AB_SIZE
      modifies d
      ensures rc == 0 ==> HoldsRecord() && d[..] == Stored() && IsValid(d[..])
      ensures rc == if works && HoldsRecord() && IsValid(Stored()) then 0 else -1
    {
      rc := ReadExact(d, works);
      if rc == 0 {
        rc := Validate(d);
      }
    }

    /** store_be32 into the last four bytes. */
    static method StoreCrc(d: array<byte>, v: word)
      requires d.Length == AB_SIZE
      modifies d
      ensures d[..] == old(d[..CRC]) + Be32(v)
    {
      var b := Be32(v);
      d[CRC], d[CRC + 1], d[CRC + 2], d[CRC + 3] := b[0], b[1], b[2], b[3];
    }

    /** write_and_verify: seal, write, fsync, read back, revalidate and compare. */
    method WriteAndVerify(d: array<byte>, io: Io) returns (rc: int)
      requires d.Length == AB_SIZE && HoldsRecord()
      modifies this, d
      ensures rc == 0 || rc == -1
      ensures d[..CRC] == old(d[..CRC]) && Sealed(d[..])
      ensures HoldsRecord() && exists n :: 0 <= n <= AB_SIZE && bytes == Overwrite(old(bytes), d[..n])
      ensures Elsewhere(old(bytes), bytes)
      ensures rc == 0 ==> Stored() == d[..] && IsValid(d[..]) && bytes == Overwrite(old(bytes), d[..])
      ensures rc == 0 <==> io.wrote == AB_SIZE && io.synced && io.readBack && WellFormed(d[..])
    {
      hide LoadBe32, Crc, WellFormed;
      var crc := Crc32Ieee(d[..CRC]);
      StoreCrc(d, crc);
      SealIs(d[..], crc);
      // pwrite may fail or stop short
      if io.wrote < 0 || io.wrote > AB_SIZE {
        assert bytes == Overwrite(old(bytes), d[..0]);
        return -1;
      }
      bytes := Overwrite(bytes, d[..io.wrote]);
      if io.wrote != AB_SIZE || !io.synced {
        return -1;
      }
      WholeRecord(old(bytes), d[..]);
      var verify := new byte[AB_SIZE];
      rc := ReadExact(verify, io.readBack);
      if rc != 0 {
        return;
      }
      rc := Validate(verify);
      if rc == 0 && verify[..] != d[..] {
        rc := -1;
      }
    }

    /** mutate(): lock, verify the running slot, read, change, write back. */
    method Mutate(op: Mutation, slot: SlotIndex, current: int, io: Io) returns (rc: int)
      requires -1 <= current <= 1
      modifies this
      ensures rc == 0 || rc == 1
      ensures rc == 0 ==>
                && old(HoldsRecord()) && HoldsRecord() && current >= 0
                && IsValid(old(Stored())) && IsValid(Stored())
                && Allowed(op, slot, current, old(Stored())) && Changed(op, slot, old(Stored()), Stored())
                && bytes == Overwrite(old(bytes), Stored())
      ensures rc == 0 <==>
                && current >= 0 && io.read && old(HoldsRecord()) && IsValid(old(Stored())) && Allowed(op, slot, current, old(Stored()))
                && (AlreadyBad(op, slot, old(Stored())) || (io.wrote == AB_SIZE && io.synced && io.readBack))
      ensures old(HoldsRecord()) && Refuses(op, slot, current, old(Stored())) ==> rc == 1 && bytes == old(bytes)
      ensures Elsewhere(old(bytes), bytes)
    {
      hide LoadBe32, Crc, WellFormed, Changed, Allowed, Overwrite, Elsewhere, AlreadyBad;
      LeftAlone(bytes);
      if current < 0 {
        return 1;
      }
      var d := new byte[AB_SIZE];
      rc := OpenAndRead(d, io.read);
      if rc != 0 {
        return 1;
      }
      ghost var before: Record := d[..];
      var go, write := Apply(d, op, slot, current);
      if !go || !write {
        return if go then 0 else 1;
      }
      ghost var changed: Record := d[..];
      rc := WriteAndVerify(d, io);
      ChangedBySeal(op, slot, before, changed, d[..]);
      MutationKeeps(op, slot, current, before, d[..]);
      rc := if rc == 0 then 0 else 1;
    }

    /** The switch of mutate(): whether the mutation goes ahead, and whether it needs a write. */
    static method Apply(d: array<byte>, op: Mutation, slot: SlotIndex, current: SlotIndex) returns (go: bool, write: bool)
      requires d.Length == AB_SIZE
      modifies d
      ensures go == Allowed(op, slot, current, old(d[..]))
      ensures go ==> Changed(op, slot, old(d[..]), d[..])
      ensures !write ==> d[..] == old(d[..])
      ensures go ==> (!write <==> AlreadyBad(op, slot, old(d[..])))
    {
      hide Bootable, Changed;
      ghost var was: Record := d[..];
      go, write := true, true;
      var other: SlotIndex := 1 - slot;
      match op {
        case SetPrimary =>
          d[PriorityAt(slot)] := MAX_PRIORITY;
          d[TriesAt(slot)] := MAX_TRIES;
          d[SuccessAt(slot)] := 0;
          if d[PriorityAt(other)] == MAX_PRIORITY {
            d[PriorityAt(other)] := MAX_PRIORITY - 1;
          }
          PrimaryChanged(slot, was, d[..]);
        case MarkBad =>
          if !Bootable(d[..], other) {
            return false, false;
          }
          if d[PriorityAt(slot)] == 0 && d[TriesAt(slot)] == 0 && d[SuccessAt(slot)] == 0 {
            BadChanged(slot, was, was);
            return true, false;
          }
          d[PriorityAt(slot)] := 0;
          d[TriesAt(slot)] := 0;
          d[SuccessAt(slot)] := 0;
          BadChanged(slot, was, d[..]);
        case MarkGood =>
          if slot != current || !Bootable(d[..], slot) {
            return false, false;
          }
          d[PriorityAt(slot)] := MAX_PRIORITY;
          d[TriesAt(slot)] := 0;
          d[SuccessAt(slot)] := 1;
          d[FlagsAt(slot)] := d[FlagsAt(slot)] & 0xfe;
          d[LAST_BOOT] := if slot == 0 then 0 else 1;
          GoodChanged(slot, was, d[..]);
      }
    }
  }

  lemma PrimaryChanged(slot: SlotIndex, d: Record, e: Record)
    requires var chosen := d[PriorityAt(slot) := MAX_PRIORITY][TriesAt(slot) := MAX_TRIES][SuccessAt(slot) := 0];
      e == if d[PriorityAt(1 - slot)] == MAX_PRIORITY then chosen[PriorityAt(1 - slot) := MAX_PRIORITY - 1] else chosen
    ensures Changed(SetPrimary, slot, d, e)
  {
  }

  lemma BadChanged(slot: SlotIndex, d: Record, e: Record)
    requires e == d[PriorityAt(slot) := 0][TriesAt(slot) := 0][SuccessAt(slot) := 0]
    ensures Changed(MarkBad, slot, d, e)
  {
  }

  lemma GoodChanged(slot: SlotIndex, d: Record, e: Record)
    requires e == d[PriorityAt(slot) := MAX_PRIORITY][TriesAt(slot) := 0][SuccessAt(slot) := 1]
                   [FlagsAt(slot) := d[FlagsAt(slot)] & 0xfe][LAST_BOOT := if slot == 0 then 0 else 1]
    ensures Changed(MarkGood, slot, d, e)
  {
  }

  /** The one change that is none. */
  predicate AlreadyBad(op: Mutation, slot: SlotIndex, d: Record) {
    op == MarkBad && SlotSet(d, slot, 0, 0, 0)
  }

  lemma WholeRecord(bytes: seq<byte>, d: Record)
    requires |bytes| >= AB_OFFSET + AB_SIZE
    ensures Overwrite(bytes, d[..AB_SIZE])[AB_OFFSET..AB_OFFSET + AB_SIZE] == d
  {
    assert d[..AB_SIZE] == d;
  }

  /** When mutate() must leave the partition alone. */
  predicate Refuses(op: Mutation, slot: SlotIndex, current: int, d: Record)
    requires current <= 1
  {
    current < 0 || !IsValid(d) || !Allowed(op, slot, current, d)
  }

  lemma ChangedBySeal(op: Mutation, slot: SlotIndex, d: Record, e: Record, sealedE: Record)
    requires sealedE[..CRC] == e[..CRC]
    ensures Changed(op, slot, d, e) ==> Changed(op, slot, d, sealedE)
  {
    assert forall i :: 0 <= i < CRC ==> e[..CRC][i] == e[i] && sealedE[..CRC][i] == sealedE[i];
  }

  lemma SealIs(d: seq<byte>, crc: word)
    requires |d| == AB_SIZE && d == d[..CRC] + Be32(crc) && crc == Crc(d[..CRC])
    ensures Sealed(d)
  {
    hide LoadBe32, Crc, Be32;
    LoadOfStore(crc);
    assert d[CRC..] == Be32(crc);
  }

  /** The record with its checksum made good. */
  function Resealed(d: Record): Record {
    d[..CRC] + Be32(Crc(d[..CRC]))
  }

  lemma ResealedIs(d: Record)
    ensures Sealed(Resealed(d)) && Resealed(d)[..CRC] == d[..CRC]
    ensures forall i :: 0 <= i < CRC ==> Resealed(d)[i] == d[i]
  {
    hide Crc, Be32, LoadBe32;
    var e := Resealed(d);
    assert e[..CRC] == d[..CRC];
    SealIs(e, Crc(d[..CRC]));
  }

  /** There is a valid record for which mark-good does not make its slot primary: both at priority 15. */
  lemma MarkGoodTieGoesToA() returns (d: Record, e: Record)
    ensures IsValid(d) && Takes(d, Step(MarkGood, 1, 1), e) && PrimarySlot(e) == 0
    ensures SlotSet(d, 0, 15, 0, 1) && SlotSet(d, 1, 15, 7, 0)
  {
    hide Crc, Be32, LoadBe32, Sealed, Resealed;
    var a: Record := MAGIC + [1, 0, 0, 0] + [15, 0, 1, 0] + [15, 7, 0, 0] + seq(16, _ => 0);
    ResealedIs(a);
    d := Resealed(a);
    assert d[..4] == MAGIC;
    var b: Record := d[TriesAt(1) := 0][SuccessAt(1) := 1][FlagsAt(1) := d[FlagsAt(1)] & 0xfe][LAST_BOOT := 1];
    ResealedIs(b);
    e := Resealed(b);
  }
}
