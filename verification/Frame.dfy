/**
 The frame a central writes to the provisioning daemon (protocol.c, egp_protocol_accept): a 32-byte
 header and the bytes of one slice of a message. The parser accepts exactly the printed frames.
 */
module Frame {
  import opened Bytes
  import opened ProtocolKeys

  const HEADER := 32
  const MAX_JSON := 1024

  datatype Refusal =
    | PayloadInvalid
    | ProtocolUnsupported
    | PayloadTooLarge
    | FragmentConflict
    | TransactionTimeout
    | Busy
    | ReplayRejected

  datatype Frame = Frame(id: TransactionId, opcode: byte, start: bool, end: bool, total: nat, offset: nat,
                         payload: seq<byte>)

  datatype Parsed = Good(frame: Frame) | Bad(code: Refusal)

  predicate OpcodeAllowed(c: Characteristic, opcode: byte) {
    match c
    case Provisioning => opcode == 0x01 || opcode == 0x02 || opcode == 0x03
    case Control => opcode == 0x10
  }

  predicate Nonzero(id: TransactionId) {
    exists i :: 0 <= i < 16 && id[i] != 0
  }

  const MAGIC: seq<byte> := [0x45, 0x47, 0x50, 0x31]

  /** The header checks of egp_protocol_accept, in order. */
  function Parse(c: Characteristic, value: seq<byte>): Parsed {
    if |value| < HEADER then Bad(PayloadInvalid)
    else if value[..4] != MAGIC || value[4] != 1 then Bad(ProtocolUnsupported)
    else if value[6] > 3 || value[7] != 0 || value[30] != 0 || value[31] != 0 || !OpcodeAllowed(c, value[5]) then
      Bad(PayloadInvalid)
    else
      var start, end := value[6] % 2 == 1, value[6] >= 2;
      var total, offset, fragment := ReadBe16(value[24..26]), ReadBe16(value[26..28]), ReadBe16(value[28..30]);
      if total > MAX_JSON then Bad(PayloadTooLarge)
      else if fragment != |value| - HEADER || offset > total || fragment > total - offset || !Nonzero(value[8..24]) ||
        (start && offset != 0) || (end && offset + fragment != total) then Bad(PayloadInvalid)
      else Good(Frame(value[8..24], value[5], start, end, total, offset, value[32..]))
  }

  /** The frames a central may send. */
  predicate Legal(c: Characteristic, f: Frame) {
    && OpcodeAllowed(c, f.opcode) && Nonzero(f.id)
    && f.total <= MAX_JSON && f.offset + |f.payload| <= f.total
    && (f.start ==> f.offset == 0) && (f.end ==> f.offset + |f.payload| == f.total)
  }

  function Flags(f: Frame): byte {
    (if f.start then 1 else 0) + (if f.end then 2 else 0)
  }

  /** How a central writes a frame. */
  function Encode(f: Frame): (value: seq<byte>)
    requires f.total < 0x1_0000 && f.offset < 0x1_0000 && |f.payload| < 0x1_0000
    ensures |value| == HEADER + |f.payload|
  {
    MAGIC + [1, f.opcode, Flags(f), 0] + f.id + Be16(f.total) + Be16(f.offset) + Be16(|f.payload|) + [0, 0] + f.payload
  }

  lemma EncodeFields(f: Frame)
    requires f.total < 0x1_0000 && f.offset < 0x1_0000 && |f.payload| < 0x1_0000
    ensures var v := Encode(f);
      && v[..4] == MAGIC && v[4] == 1 && v[5] == f.opcode && v[6] == Flags(f) && v[7] == 0
      && v[8..24] == f.id && v[24..26] == Be16(f.total) && v[26..28] == Be16(f.offset)
      && v[28..30] == Be16(|f.payload|) && v[30] == 0 && v[31] == 0 && v[32..] == f.payload
  {
    hide Be16;
    var v := Encode(f);
    var head, lengths := MAGIC + [1, f.opcode, Flags(f), 0], Be16(f.total) + Be16(f.offset) + Be16(|f.payload|);
    assert v == head + f.id + lengths + [0, 0] + f.payload;
    assert v[8..24] == f.id;
    assert v[24..30] == lengths;
    assert v[24..26] == lengths[..2] && v[26..28] == lengths[2..4] && v[28..30] == lengths[4..];
  }

  /** The header's fields by offset, as the design lays them out: `v` spells the frame `f`. */
  predicate FollowsTable(c: Characteristic, v: seq<byte>, f: Frame) {
    && |v| >= 32 && v[0] == 'E' as int && v[1] == 'G' as int && v[2] == 'P' as int && v[3] == '1' as int
    && v[4] == 1 && v[5] == f.opcode && OpcodeAllowed(c, f.opcode)
    && v[6] == (if f.start then 1 else 0) + (if f.end then 2 else 0) && v[7] == 0
    && v[8..24] == f.id && (exists i :: 0 <= i < 16 && f.id[i] != 0)
    && v[24] as int * 256 + v[25] == f.total <= 1024
    && v[26] as int * 256 + v[27] == f.offset && f.offset + |f.payload| <= f.total
    && v[28] as int * 256 + v[29] == |f.payload| && v[30] == 0 && v[31] == 0 && v[32..] == f.payload
    && (f.start ==> f.offset == 0) && (f.end ==> f.offset + |f.payload| == f.total)
  }

  /** The parser accepts exactly what the table allows, as what it says. */
  lemma ParsesTable(c: Characteristic, v: seq<byte>, f: Frame)
    ensures Parse(c, v) == Good(f) <==> FollowsTable(c, v, f)
  {
  }

  /** Whatever a central may send is understood as it was meant. */
  lemma ParseOfEncode(c: Characteristic, f: Frame)
    requires Legal(c, f)
    ensures Parse(c, Encode(f)) == Good(f)
  {
    EncodeFields(f);
  }

  /** Only such frames are understood, and only in their one spelling. */
  lemma EncodeOfParse(c: Characteristic, value: seq<byte>)
    requires Parse(c, value).Good?
    ensures Legal(c, Parse(c, value).frame) && value == Encode(Parse(c, value).frame)
  {
    hide Nonzero;
    var f := Parse(c, value).frame;
    EncodeFields(f);
    assert Be16(f.total) == value[24..26] && Be16(f.offset) == value[26..28] && Be16(|f.payload|) == value[28..30];
    var v := Encode(f);
    assert v[4..8] == value[4..8] && v[30..32] == value[30..32];
    ThreeFields(v);
    ThreeFields(value);
    SixPieces(v);
    SixPieces(value);
  }

  lemma ThreeFields(v: seq<byte>)
    requires |v| >= 30
    ensures v[24..30] == v[24..26] + v[26..28] + v[28..30]
  {
  }

  lemma SixPieces(v: seq<byte>)
    requires |v| >= 32
    ensures v == v[..4] + v[4..8] + v[8..24] + v[24..30] + v[30..32] + v[32..]
  {
  }
}
