/** The binary container of MISSION_ITEM_INT items: an encoder writing into a buffer and its parser.
    32-bit floats are opaque 32-bit words. */
module MavlinkCodec {
  import opened SharedTypes

  type Byte = b: int | 0 <= b < 256

  /** The bit pattern of a 32-bit float. */
  type Word = w: int | 0 <= w < 0x1_0000_0000

  datatype MissionItem = MissionItem(
    seq_: int,
    frame: int,
    command: int,
    current: int,
    autocontinue: int,
    param1: Word,
    param2: Word,
    param3: Word,
    param4: Word,
    x: int,
    y: int,
    z: Word,
    targetSystem: int,
    targetComponent: int,
    missionType: int)

  datatype CodecError = OutOfRange | TooSmall | BadMagic | BadVersion | BadLength

  const MAGIC := 0x564d_4150
  const FORMAT_VERSION := 1
  const HEADER_SIZE := 8
  const ITEM_SIZE := 38

  // ----- little-endian numbers -----

  predicate FitsU8(v: int) { 0 <= v < 0x100 }
  predicate FitsU16(v: int) { 0 <= v < 0x1_0000 }
  predicate FitsI32(v: int) { -0x8000_0000 <= v < 0x8000_0000 }

  function U16(v: int): (r: seq<Byte>)
    requires FitsU16(v)
    ensures |r| == 2
  {
    [v % 256, v / 256]
  }

  function U32(v: Word): (r: seq<Byte>)
    ensures |r| == 4
  {
    [v % 256, v / 256 % 256, v / 65536 % 256, v / 16777216]
  }

  /** Two's complement. */
  function I32(v: int): (r: seq<Byte>)
    requires FitsI32(v)
    ensures |r| == 4
  {
    U32(if v < 0 then v + 0x1_0000_0000 else v)
  }

  function ReadU16(b: seq<Byte>, offset: nat): (v: int)
    requires offset + 2 <= |b|
    ensures FitsU16(v)
  {
    b[offset] as int + 256 * (b[offset + 1] as int)
  }

  function ReadU32(b: seq<Byte>, offset: nat): Word
    requires offset + 4 <= |b|
  {
    b[offset] as int + 256 * (b[offset + 1] as int) + 65536 * (b[offset + 2] as int) + 16777216 * (b[offset + 3] as int)
  }

  function ReadI32(b: seq<Byte>, offset: nat): (v: int)
    requires offset + 4 <= |b|
    ensures FitsI32(v)
  {
    var u := ReadU32(b, offset);
    if u < 0x8000_0000 then u else u - 0x1_0000_0000
  }

  lemma ReadsBack(b: seq<Byte>, offset: nat)
    requires offset + 2 <= |b|
    ensures U16(ReadU16(b, offset)) == b[offset..offset + 2]
    ensures offset + 4 <= |b| ==> U32(ReadU32(b, offset)) == b[offset..offset + 4]
    ensures offset + 4 <= |b| ==> I32(ReadI32(b, offset)) == b[offset..offset + 4]
  {
    if offset + 4 <= |b| {
      Digits(b[offset], b[offset + 1], b[offset + 2], b[offset + 3]);
    }
  }

  lemma Digits(b0: int, b1: int, b2: int, b3: int)
    requires 0 <= b0 < 256 && 0 <= b1 < 256 && 0 <= b2 < 256 && 0 <= b3 < 256
    ensures U32(b0 + 256 * b1 + 65536 * b2 + 16777216 * b3) == [b0, b1, b2, b3]
  {
    var v := b0 + 256 * b1 + 65536 * b2 + 16777216 * b3;
    assert v / 256 == b1 + 256 * b2 + 65536 * b3;
    assert v / 65536 == b2 + 256 * b3;
  }

  lemma ReadsWhatWasWritten(b: seq<Byte>, offset: nat)
    ensures forall v :: offset + 2 <= |b| && FitsU16(v) && b[offset..offset + 2] == U16(v) ==> ReadU16(b, offset) == v
    ensures forall v: Word :: offset + 4 <= |b| && b[offset..offset + 4] == U32(v) ==> ReadU32(b, offset) == v
    ensures forall v :: offset + 4 <= |b| && FitsI32(v) && b[offset..offset + 4] == I32(v) ==> ReadI32(b, offset) == v
  {
    forall v | offset + 2 <= |b| && FitsU16(v) && b[offset..offset + 2] == U16(v) ensures ReadU16(b, offset) == v {
      assert b[offset] == b[offset..offset + 2][0] && b[offset + 1] == b[offset..offset + 2][1];
    }
    forall v: Word | offset + 4 <= |b| && b[offset..offset + 4] == U32(v) ensures ReadU32(b, offset) == v {
      ReadU32Back(b, offset, v);
    }
    forall v | offset + 4 <= |b| && FitsI32(v) && b[offset..offset + 4] == I32(v) ensures ReadI32(b, offset) == v {
      ReadU32Back(b, offset, if v < 0 then v + 0x1_0000_0000 else v);
    }
  }

  lemma ReadU32Back(b: seq<Byte>, offset: nat, v: Word)
    requires offset + 4 <= |b| && b[offset..offset + 4] == U32(v)
    ensures ReadU32(b, offset) == v
  {
    var c := b[offset..offset + 4];
    assert b[offset] == c[0] && b[offset + 1] == c[1] && b[offset + 2] == c[2] && b[offset + 3] == c[3];
    assert v / 65536 == v / 256 / 256 && v / 16777216 == v / 65536 / 256;
  }

  // ----- the byte layout -----

  predicate Fits(item: MissionItem) {
    && FitsI32(item.x) && FitsI32(item.y)
    && FitsU16(item.seq_) && FitsU16(item.command)
    && FitsU8(item.targetSystem) && FitsU8(item.targetComponent) && FitsU8(item.frame)
    && FitsU8(item.current) && FitsU8(item.autocontinue) && FitsU8(item.missionType)
  }

  function ItemBytes(item: MissionItem): (r: seq<Byte>)
    requires Fits(item)
    ensures |r| == ITEM_SIZE
  {
    PositionBytes(item) + CommandBytes(item)
  }

  /** Bytes 0 to 27: parameters, coordinates, altitude. */
  function PositionBytes(item: MissionItem): (r: seq<Byte>)
    requires FitsI32(item.x) && FitsI32(item.y)
    ensures |r| == 28
  {
    U32(item.param1) + U32(item.param2) + U32(item.param3) + U32(item.param4)
    + I32(item.x) + I32(item.y) + U32(item.z)
  }

  /** Bytes 28 to 37: sequence number, command, addressing and flags. */
  function CommandBytes(item: MissionItem): (r: seq<Byte>)
    requires Fits(item)
    ensures |r| == 10
  {
    U16(item.seq_) + U16(item.command)
    + [item.targetSystem] + [item.targetComponent] + [item.frame]
    + [item.current] + [item.autocontinue] + [item.missionType]
  }

  function HeaderBytes(count: int): (r: seq<Byte>)
    requires FitsU16(count)
    ensures |r| == HEADER_SIZE
  {
    U32(MAGIC) + [FORMAT_VERSION] + [0] + U16(count)
  }

  predicate AllFit(items: seq<MissionItem>) {
    forall item :: item in items ==> Fits(item)
  }

  function AllItemBytes(items: seq<MissionItem>): (r: seq<Byte>)
    requires AllFit(items)
    ensures |r| == 38 * |items|
  {
    if items == [] then [] else AllItemBytes(items[..|items| - 1]) + ItemBytes(items[|items| - 1])
  }

  predicate Encodable(items: seq<MissionItem>) {
    FitsU16(|items|) && AllFit(items)
  }

  function Encoded(items: seq<MissionItem>): (r: seq<Byte>)
    requires Encodable(items)
    ensures |r| == ItemOffset(|items|)
  {
    HeaderBytes(|items|) + AllItemBytes(items)
  }

  function ItemAt(b: seq<Byte>, offset: nat): (item: MissionItem)
    requires offset + ITEM_SIZE <= |b|
    ensures Fits(item)
  {
    MissionItem(
      ReadU16(b, offset + 28),
      b[offset + 34],
      ReadU16(b, offset + 30),
      b[offset + 35],
      b[offset + 36],
      ReadU32(b, offset + 0),
      ReadU32(b, offset + 4),
      ReadU32(b, offset + 8),
      ReadU32(b, offset + 12),
      ReadI32(b, offset + 16),
      ReadI32(b, offset + 20),
      ReadU32(b, offset + 24),
      b[offset + 32],
      b[offset + 33],
      b[offset + 37])
  }

  /** Where item i starts. */
  function ItemOffset(i: nat): (offset: nat)
    ensures offset == 8 + 38 * i
  {
    HEADER_SIZE + i * ITEM_SIZE
  }

  function ItemsAt(b: seq<Byte>, n: nat): (items: seq<MissionItem>)
    requires ItemOffset(n) <= |b|
    ensures |items| == n && AllFit(items)
  {
    if n == 0 then []
    else ItemsAt(b, n - 1) + [ItemAt(b, ItemOffset(n - 1))]
  }

  function Parsed(b: seq<Byte>): Result<seq<MissionItem>, CodecError> {
    if |b| < HEADER_SIZE then Err(TooSmall)
    else if ReadU32(b, 0) != MAGIC then Err(BadMagic)
    else if b[4] != FORMAT_VERSION then Err(BadVersion)
    else
      var count := ReadU16(b, 6);
      if |b| != ItemOffset(count) then Err(BadLength)
      else Ok(ItemsAt(b, count))
  }

  // ----- the encoder -----

  method WriteU8(buffer: array<Byte>, value: int, offset: nat) returns (r: Outcome<CodecError>)
    requires offset + 1 <= buffer.Length
    modifies buffer
    ensures r.Pass? <==> FitsU8(value)
    ensures r.Pass? ==> buffer[..offset + 1] == old(buffer[..offset]) + [value]
  {
    if !FitsU8(value) {
      return Fail(OutOfRange);
    }
    buffer[offset] := value;
    return Pass;
  }

  method WriteU16(buffer: array<Byte>, value: int, offset: nat) returns (r: Outcome<CodecError>)
    requires offset + 2 <= buffer.Length
    modifies buffer
    ensures r.Pass? <==> FitsU16(value)
    ensures r.Pass? ==> buffer[..offset + 2] == old(buffer[..offset]) + U16(value)
  {
    if !FitsU16(value) {
      return Fail(OutOfRange);
    }
    var bytes := U16(value);
    buffer[offset], buffer[offset + 1] := bytes[0], bytes[1];
    return Pass;
  }

  /** Also how a float is written: every 32-bit pattern is accepted. */
  method WriteU32(buffer: array<Byte>, value: Word, offset: nat)
    requires offset + 4 <= buffer.Length
    modifies buffer
    ensures buffer[..offset + 4] == old(buffer[..offset]) + U32(value)
  {
    var bytes := U32(value);
    buffer[offset], buffer[offset + 1], buffer[offset + 2], buffer[offset + 3] :=
      bytes[0], bytes[1], bytes[2], bytes[3];
  }

  method WriteI32(buffer: array<Byte>, value: int, offset: nat) returns (r: Outcome<CodecError>)
    requires offset + 4 <= buffer.Length
    modifies buffer
    ensures r.Pass? <==> FitsI32(value)
    ensures r.Pass? ==> buffer[..offset + 4] == old(buffer[..offset]) + I32(value)
  {
    if !FitsI32(value) {
      return Fail(OutOfRange);
    }
    WriteU32(buffer, if value < 0 then value + 0x1_0000_0000 else value, offset);
    return Pass;
  }

  method WritePosition(buffer: array<Byte>, item: MissionItem, offset: nat) returns (r: Outcome<CodecError>)
    requires offset + 28 <= buffer.Length
    modifies buffer
    ensures r.Pass? <==> FitsI32(item.x) && FitsI32(item.y)
    ensures r.Pass? ==> buffer[..offset + 28] == old(buffer[..offset]) + PositionBytes(item)
  {
    hide U32, I32;
    WriteU32(buffer, item.param1, offset + 0);
    WriteU32(buffer, item.param2, offset + 4);
    WriteU32(buffer, item.param3, offset + 8);
    WriteU32(buffer, item.param4, offset + 12);
    r := WriteI32(buffer, item.x, offset + 16);
    if r.Fail? { return; }
    r := WriteI32(buffer, item.y, offset + 20);
    if r.Fail? { return; }
    WriteU32(buffer, item.z, offset + 24);
  }

  method WriteCommand(buffer: array<Byte>, item: MissionItem, offset: nat) returns (r: Outcome<CodecError>)
    requires offset + ITEM_SIZE <= buffer.Length && FitsI32(item.x) && FitsI32(item.y)
    modifies buffer
    ensures r.Pass? <==> Fits(item)
    ensures r.Pass? ==> buffer[..offset + 38] == old(buffer[..offset + 28]) + CommandBytes(item)
  {
    hide U16;
    r := WriteU16(buffer, item.seq_, offset + 28);
    if r.Fail? { return; }
    r := WriteU16(buffer, item.command, offset + 30);
    if r.Fail? { return; }
    r := WriteU8(buffer, item.targetSystem, offset + 32);
    if r.Fail? { return; }
    r := WriteU8(buffer, item.targetComponent, offset + 33);
    if r.Fail? { return; }
    r := WriteU8(buffer, item.frame, offset + 34);
    if r.Fail? { return; }
    r := WriteU8(buffer, item.current, offset + 35);
    if r.Fail? { return; }
    r := WriteU8(buffer, item.autocontinue, offset + 36);
    if r.Fail? { return; }
    r := WriteU8(buffer, item.missionType, offset + 37);
  }

  /** The writes of one item, in order; the first field that does not fit stops them. */
  method WriteItem(buffer: array<Byte>, item: MissionItem, offset: nat) returns (r: Outcome<CodecError>)
    requires offset + ITEM_SIZE <= buffer.Length
    modifies buffer
    ensures r.Pass? <==> Fits(item)
    ensures r.Pass? ==> buffer[..offset + ITEM_SIZE] == old(buffer[..offset]) + ItemBytes(item)
  {
    hide PositionBytes, CommandBytes;
    r := WritePosition(buffer, item, offset);
    if r.Fail? { return; }
    r := WriteCommand(buffer, item, offset);
  }

  method WriteHeader(buffer: array<Byte>, count: nat) returns (r: Outcome<CodecError>)
    requires HEADER_SIZE <= buffer.Length
    modifies buffer
    ensures r.Pass? <==> FitsU16(count)
    ensures r.Pass? ==> buffer[..HEADER_SIZE] == HeaderBytes(count)
  {
    hide U32, U16;
    WriteU32(buffer, MAGIC, 0);
    r := WriteU8(buffer, FORMAT_VERSION, 4);
    r := WriteU8(buffer, 0, 5);
    r := WriteU16(buffer, count, 6);
  }

  /** No write leaves the buffer; encoding fails exactly when some field or the count does not fit. */
  method EncodeBinary(items: seq<MissionItem>) returns (r: Result<array<Byte>, CodecError>)
    ensures r.Ok? <==> Encodable(items)
    ensures r.Ok? ==> fresh(r.value) && r.value[..] == Encoded(items)
    ensures r.Err? ==> r.error == OutOfRange
  {
    hide HeaderBytes, ItemBytes, Fits;
    var buffer := new Byte[ItemOffset(|items|)];
    var started := WriteHeader(buffer, |items|);
    if started.Fail? {
      return Err(OutOfRange);
    }
    var offset := HEADER_SIZE;
    for i := 0 to |items|
      invariant offset == ItemOffset(i)
      invariant AllFit(items[..i])
      invariant buffer[..offset] == HeaderBytes(|items|) + AllItemBytes(items[..i])
    {
      var written := WriteItem(buffer, items[i], offset);
      if written.Fail? {
        assert items[i] in items;
        return Err(OutOfRange);
      }
      assert items[..i + 1] == items[..i] + [items[i]];
      offset := offset + ITEM_SIZE;
    }
    assert items[..|items|] == items && buffer[..offset] == buffer[..];
    return Ok(buffer);
  }

  // ----- the parser -----

  method ParseMavlink(buffer: array<Byte>) returns (r: Result<seq<MissionItem>, CodecError>)
    ensures r == Parsed(buffer[..])
  {
    if buffer.Length < HEADER_SIZE {
      return Err(TooSmall);
    }
    if ReadU32(buffer[..], 0) != MAGIC {
      return Err(BadMagic);
    }
    if buffer[4] != FORMAT_VERSION {
      return Err(BadVersion);
    }
    var count := ReadU16(buffer[..], 6);
    if buffer.Length != ItemOffset(count) {
      return Err(BadLength);
    }
    var items: seq<MissionItem> := [];
    var offset := HEADER_SIZE;
    for i := 0 to count
      invariant offset == ItemOffset(i)
      invariant items == ItemsAt(buffer[..], i)
    {
      items := items + [ItemAt(buffer[..], offset)];
      offset := offset + ITEM_SIZE;
    }
    return Ok(items);
  }
}
