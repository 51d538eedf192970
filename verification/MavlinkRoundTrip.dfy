/** The MAVLink container loses nothing: parsing inverts encoding, and encoding inverts parsing. */
module MavlinkRoundTrip {
  import opened SharedTypes
  import opened MavlinkCodec

  /** `part` is what stands at `offset` in b. */
  ghost predicate Has(b: seq<Byte>, offset: nat, part: seq<Byte>) {
    offset + |part| <= |b| && b[offset..offset + |part|] == part
  }

  lemma HasParts(b: seq<Byte>, offset: nat, first: seq<Byte>, second: seq<Byte>)
    ensures Has(b, offset, first + second) <==> Has(b, offset, first) && Has(b, offset + |first|, second)
  {
    if Has(b, offset, first + second) {
      var whole := b[offset..offset + |first| + |second|];
      assert first == whole[..|first|] && second == whole[|first|..];
    }
    if Has(b, offset, first) && Has(b, offset + |first|, second) {
      assert b[offset..offset + |first| + |second|]
        == b[offset..offset + |first|] + b[offset + |first|..offset + |first| + |second|];
    }
  }

  lemma HasPosition(b: seq<Byte>, offset: nat, item: MissionItem)
    requires FitsI32(item.x) && FitsI32(item.y)
    ensures Has(b, offset, PositionBytes(item)) <==>
      && Has(b, offset, U32(item.param1)) && Has(b, offset + 4, U32(item.param2))
      && Has(b, offset + 8, U32(item.param3)) && Has(b, offset + 12, U32(item.param4))
      && Has(b, offset + 16, I32(item.x)) && Has(b, offset + 20, I32(item.y)) && Has(b, offset + 24, U32(item.z))
  {
    hide U32, I32, Has;
    var p1 := U32(item.param1);
    var p2 := p1 + U32(item.param2);
    var p3 := p2 + U32(item.param3);
    var p4 := p3 + U32(item.param4);
    var px := p4 + I32(item.x);
    var py := px + I32(item.y);
    assert PositionBytes(item) == py + U32(item.z);
    HasParts(b, offset, p1, U32(item.param2));
    HasParts(b, offset, p2, U32(item.param3));
    HasParts(b, offset, p3, U32(item.param4));
    HasParts(b, offset, p4, I32(item.x));
    HasParts(b, offset, px, I32(item.y));
    HasParts(b, offset, py, U32(item.z));
  }

  lemma HasCommand(b: seq<Byte>, offset: nat, item: MissionItem)
    requires Fits(item)
    ensures Has(b, offset, CommandBytes(item)) <==>
      && Has(b, offset, U16(item.seq_)) && Has(b, offset + 2, U16(item.command))
      && Has(b, offset + 4, [item.targetSystem]) && Has(b, offset + 5, [item.targetComponent])
      && Has(b, offset + 6, [item.frame]) && Has(b, offset + 7, [item.current])
      && Has(b, offset + 8, [item.autocontinue]) && Has(b, offset + 9, [item.missionType])
  {
    hide U16, Has;
    var c1 := U16(item.seq_);
    var c2: seq<Byte> := c1 + U16(item.command);
    var c3: seq<Byte> := c2 + [item.targetSystem];
    var c4: seq<Byte> := c3 + [item.targetComponent];
    var c5: seq<Byte> := c4 + [item.frame];
    var c6: seq<Byte> := c5 + [item.current];
    var c7: seq<Byte> := c6 + [item.autocontinue];
    assert CommandBytes(item) == c7 + [item.missionType];
    HasParts(b, offset, c1, U16(item.command));
    HasParts(b, offset, c2, [item.targetSystem]);
    HasParts(b, offset, c3, [item.targetComponent]);
    HasParts(b, offset, c4, [item.frame]);
    HasParts(b, offset, c5, [item.current]);
    HasParts(b, offset, c6, [item.autocontinue]);
    HasParts(b, offset, c7, [item.missionType]);
  }

  lemma HasByte(b: seq<Byte>, offset: nat, v: Byte)
    ensures Has(b, offset, [v]) <==> offset < |b| && b[offset] == v
  {
    if offset < |b| {
      assert b[offset..offset + 1] == [b[offset]];
    }
  }

  lemma HasU16(b: seq<Byte>, offset: nat, v: int)
    requires FitsU16(v)
    ensures Has(b, offset, U16(v)) <==> offset + 2 <= |b| && ReadU16(b, offset) == v
  {
    ReadsWhatWasWritten(b, offset);
    if offset + 2 <= |b| {
      ReadsBack(b, offset);
    }
  }

  lemma HasU32(b: seq<Byte>, offset: nat, v: Word)
    ensures Has(b, offset, U32(v)) <==> offset + 4 <= |b| && ReadU32(b, offset) == v
  {
    ReadsWhatWasWritten(b, offset);
    if offset + 4 <= |b| {
      ReadsBack(b, offset);
    }
  }

  lemma HasI32(b: seq<Byte>, offset: nat, v: int)
    requires FitsI32(v)
    ensures Has(b, offset, I32(v)) <==> offset + 4 <= |b| && ReadI32(b, offset) == v
  {
    ReadsWhatWasWritten(b, offset);
    if offset + 4 <= |b| {
      ReadsBack(b, offset);
    }
  }

  /** The item read at an offset is the one whose bytes stand there. */
  lemma ItemBytesIff(b: seq<Byte>, offset: nat, item: MissionItem)
    requires Fits(item)
    ensures Has(b, offset, ItemBytes(item)) <==> offset + ITEM_SIZE <= |b| && ItemAt(b, offset) == item
  {
    HasParts(b, offset, PositionBytes(item), CommandBytes(item));
    HasPosition(b, offset, item);
    HasCommand(b, offset + 28, item);
    hide Has, U16, U32, I32, ReadU16, ReadU32, ReadI32, PositionBytes, CommandBytes;
    HasU32(b, offset, item.param1);
    HasU32(b, offset + 4, item.param2);
    HasU32(b, offset + 8, item.param3);
    HasU32(b, offset + 12, item.param4);
    HasI32(b, offset + 16, item.x);
    HasI32(b, offset + 20, item.y);
    HasU32(b, offset + 24, item.z);
    HasU16(b, offset + 28, item.seq_);
    HasU16(b, offset + 30, item.command);
    HasByte(b, offset + 32, item.targetSystem);
    HasByte(b, offset + 33, item.targetComponent);
    HasByte(b, offset + 34, item.frame);
    HasByte(b, offset + 35, item.current);
    HasByte(b, offset + 36, item.autocontinue);
    HasByte(b, offset + 37, item.missionType);
  }

  /** The items read from a body are the ones whose bytes make it up. */
  lemma {:induction false} BodyIff(b: seq<Byte>, items: seq<MissionItem>)
    requires AllFit(items)
    ensures Has(b, HEADER_SIZE, AllItemBytes(items)) <==>
      ItemOffset(|items|) <= |b| && ItemsAt(b, |items|) == items
  {
    if items != [] {
      var front, last := items[..|items| - 1], items[|items| - 1];
      assert items == front + [last];
      BodyIff(b, front);
      BodyStep(b, front, last);
    }
  }

  lemma BodyStep(b: seq<Byte>, front: seq<MissionItem>, last: MissionItem)
    requires AllFit(front) && Fits(last) && AllFit(front + [last])
    requires Has(b, HEADER_SIZE, AllItemBytes(front)) <==>
      ItemOffset(|front|) <= |b| && ItemsAt(b, |front|) == front
    ensures Has(b, HEADER_SIZE, AllItemBytes(front + [last])) <==>
      ItemOffset(|front| + 1) <= |b| && ItemsAt(b, |front| + 1) == front + [last]
  {
    hide AllFit, Fits, Has, ItemBytes, ItemAt;
    var items := front + [last];
    var offset := ItemOffset(|front|);
    assert items[..|front|] == front;
    assert AllItemBytes(items) == AllItemBytes(front) + ItemBytes(last);
    HasParts(b, HEADER_SIZE, AllItemBytes(front), ItemBytes(last));
    ItemBytesIff(b, offset, last);
    if offset + ITEM_SIZE <= |b| {
      assert ItemsAt(b, |front| + 1) == ItemsAt(b, |front|) + [ItemAt(b, offset)];
      SameSnoc(ItemsAt(b, |front|), ItemAt(b, offset), front, last);
    }
  }

  lemma SameSnoc<T>(a: seq<T>, x: T, b: seq<T>, y: T)
    requires |a| == |b|
    ensures a + [x] == b + [y] <==> a == b && x == y
  {
    if a + [x] == b + [y] {
      assert a == (a + [x])[..|a|] && b == (b + [y])[..|b|];
      assert x == (a + [x])[|a|] && y == (b + [y])[|b|];
    }
  }

  lemma HeaderIff(b: seq<Byte>, count: int)
    requires FitsU16(count)
    ensures Has(b, 0, HeaderBytes(count)) <==>
      && |b| >= HEADER_SIZE && ReadU32(b, 0) == MAGIC && b[4] == FORMAT_VERSION && b[5] == 0 && ReadU16(b, 6) == count
  {
    var h1 := U32(MAGIC);
    var h2: seq<Byte> := h1 + [FORMAT_VERSION];
    var h3: seq<Byte> := h2 + [0];
    assert HeaderBytes(count) == h3 + U16(count);
    HasParts(b, 0, h1, [FORMAT_VERSION]);
    HasParts(b, 0, h2, [0]);
    HasParts(b, 0, h3, U16(count));
    hide Has, U16, U32, ReadU16, ReadU32;
    HasU32(b, 0, MAGIC);
    HasByte(b, 4, FORMAT_VERSION);
    HasByte(b, 5, 0);
    HasU16(b, 6, count);
  }

  /** A buffer with a zero reserved byte parses to `items` exactly when it is the encoding of `items`. */
  lemma ParsesToIffEncodes(b: seq<Byte>, items: seq<MissionItem>)
    ensures Parsed(b) == Ok(items) && b[5] == 0 <==> Encodable(items) && b == Encoded(items)
  {
    hide Has, ReadU16, ReadU32, HeaderBytes, AllItemBytes, AllFit;
    if Encodable(items) {
      HasParts(b, 0, HeaderBytes(|items|), AllItemBytes(items));
      HeaderIff(b, |items|);
      BodyIff(b, items);
      HasAll(b, Encoded(items));
      if Parsed(b) == Ok(items) && b[5] == 0 {
        assert |ItemsAt(b, ReadU16(b, 6))| == ReadU16(b, 6) == |items|;
      }
    }
  }

  lemma HasAll(b: seq<Byte>, c: seq<Byte>)
    ensures |b| == |c| ==> (Has(b, 0, c) <==> b == c)
  {
    assert b[0..|b|] == b;
  }

  /** Parsing an encoded sequence returns it. */
  lemma RoundTrip(items: seq<MissionItem>)
    requires Encodable(items)
    ensures Parsed(Encoded(items)) == Ok(items)
  {
    ParsesToIffEncodes(Encoded(items), items);
  }

  /** Re-encoding what an accepted buffer parses to gives the buffer back with its reserved byte cleared. */
  lemma ReEncode(b: seq<Byte>)
    requires Parsed(b).Ok?
    ensures Encodable(Parsed(b).value) && Encoded(Parsed(b).value) == b[5 := 0]
  {
    var c: seq<Byte> := b[5 := 0];
    assert ReadU32(c, 0) == ReadU32(b, 0) && ReadU16(c, 6) == ReadU16(b, 6);
    ItemsAfterHeader(b, c, ReadU16(b, 6));
    ParsesToIffEncodes(c, Parsed(b).value);
  }

  lemma {:induction false} ItemsAfterHeader(b: seq<Byte>, c: seq<Byte>, n: nat)
    requires |b| == |c| && ItemOffset(n) <= |b|
    requires forall k :: HEADER_SIZE <= k < |b| ==> b[k] == c[k]
    ensures ItemsAt(b, n) == ItemsAt(c, n)
  {
    hide ItemAt;
    if n > 0 {
      ItemsAfterHeader(b, c, n - 1);
      SameItem(b, c, ItemOffset(n - 1));
    }
  }

  lemma SameItem(b: seq<Byte>, c: seq<Byte>, offset: nat)
    requires |b| == |c| && HEADER_SIZE <= offset && offset + ITEM_SIZE <= |b|
    requires forall k :: HEADER_SIZE <= k < |b| ==> b[k] == c[k]
    ensures ItemAt(b, offset) == ItemAt(c, offset)
  {
  }

  /** Different item sequences have different encodings. */
  lemma EncodingIsInjective(a: seq<MissionItem>, b: seq<MissionItem>)
    requires Encodable(a) && Encodable(b) && Encoded(a) == Encoded(b)
    ensures a == b
  {
    RoundTrip(a);
    RoundTrip(b);
  }

  // ----- the container, byte by byte -----

  /** The two bytes at o, low byte first, are v. */
  predicate Little16(b: seq<Byte>, o: nat, v: int) {
    o + 2 <= |b| && v == b[o] as int + 256 * (b[o + 1] as int)
  }

  /** The four bytes at o, low byte first, are v. */
  predicate Little32(b: seq<Byte>, o: nat, v: int) {
    o + 4 <= |b|
    && v == b[o] as int + 256 * (b[o + 1] as int) + 65536 * (b[o + 2] as int) + 16777216 * (b[o + 3] as int)
  }

  /** The same in two's complement. */
  predicate Signed32(b: seq<Byte>, o: nat, v: int) {
    Little32(b, o, if v < 0 then v + 0x1_0000_0000 else v)
  }

  /** The fields of the item stand at their places in the 38 bytes from o. */
  predicate LaidOut(b: seq<Byte>, o: nat, item: MissionItem) {
    && o + 38 <= |b|
    && Little32(b, o, item.param1) && Little32(b, o + 4, item.param2)
    && Little32(b, o + 8, item.param3) && Little32(b, o + 12, item.param4)
    && Signed32(b, o + 16, item.x) && Signed32(b, o + 20, item.y) && Little32(b, o + 24, item.z)
    && Little16(b, o + 28, item.seq_) && Little16(b, o + 30, item.command)
    && b[o + 32] == item.targetSystem && b[o + 33] == item.targetComponent && b[o + 34] == item.frame
    && b[o + 35] == item.current && b[o + 36] == item.autocontinue && b[o + 37] == item.missionType
  }

  /** The letters P, A, M, V, the version, a zero, and the number of items. */
  predicate Headed(b: seq<Byte>, count: int) {
    |b| == 8 + 38 * count && b[..6] == [0x50, 0x41, 0x4d, 0x56, 1, 0] && Little16(b, 6, count)
  }

  lemma ReadsItsFields(b: seq<Byte>, o: nat)
    requires o + ITEM_SIZE <= |b|
    ensures LaidOut(b, o, ItemAt(b, o))
  {
  }

  lemma {:induction false} ReadAt(b: seq<Byte>, n: nat, k: nat)
    requires ItemOffset(n) <= |b| && k < n
    ensures ItemOffset(k) + ITEM_SIZE <= |b| && ItemsAt(b, n)[k] == ItemAt(b, ItemOffset(k))
  {
    hide ItemAt;
    if k < n - 1 {
      ReadAt(b, n - 1, k);
    }
  }

  /** An encoded mission is its header followed by its items, each field at its place. */
  lemma Layout(items: seq<MissionItem>)
    requires Encodable(items)
    ensures Headed(Encoded(items), |items|)
    ensures forall k :: 0 <= k < |items| ==> LaidOut(Encoded(items), 8 + 38 * k, items[k])
  {
    var b := Encoded(items);
    HeaderBytesAre(items);
    EncodedIsRead(items);
    hide LaidOut, Encoded, ItemAt, Encodable;
    forall k | 0 <= k < |items| ensures LaidOut(b, 8 + 38 * k, items[k]) {
      ReadAt(b, |items|, k);
      ReadsItsFields(b, ItemOffset(k));
    }
  }

  lemma EncodedIsRead(items: seq<MissionItem>)
    requires Encodable(items)
    ensures ItemOffset(|items|) == |Encoded(items)| && ItemsAt(Encoded(items), |items|) == items
    ensures ReadU16(Encoded(items), 6) == |items|
  {
    ParsesToIffEncodes(Encoded(items), items);
    hide Encoded, ItemsAt, Encodable;
    assert |ItemsAt(Encoded(items), ReadU16(Encoded(items), 6))| == ReadU16(Encoded(items), 6);
  }

  lemma HeaderBytesAre(items: seq<MissionItem>)
    requires Encodable(items)
    ensures Encoded(items)[..6] == [0x50, 0x41, 0x4d, 0x56, 1, 0]
  {
    assert U32(MAGIC) == [0x50, 0x41, 0x4d, 0x56];
    hide AllItemBytes, U16, U32;
    assert HeaderBytes(|items|)[..6] == U32(MAGIC) + [FORMAT_VERSION] + [0];
    assert Encoded(items)[..6] == HeaderBytes(|items|)[..6];
  }

  /** What is refused, and why: the first of the header's demands that is not met. */
  lemma RefusedIff(b: seq<Byte>)
    ensures if |b| < 8 then Parsed(b) == Err(TooSmall)
            else if b[..4] != [0x50, 0x41, 0x4d, 0x56] then Parsed(b) == Err(BadMagic)
            else if b[4] != 1 then Parsed(b) == Err(BadVersion)
            else if |b| != 8 + 38 * (b[6] as int + 256 * (b[7] as int)) then Parsed(b) == Err(BadLength)
            else Parsed(b).Ok?
  {
    hide ItemsAt, ReadU32;
    if |b| >= 8 {
      MagicIff(b);
    }
  }

  lemma MagicIff(b: seq<Byte>)
    requires |b| >= 8
    ensures ReadU32(b, 0) == MAGIC <==> b[..4] == [0x50, 0x41, 0x4d, 0x56]
  {
    hide ReadU32;
    HasU32(b, 0, MAGIC);
    assert U32(MAGIC) == [0x50, 0x41, 0x4d, 0x56];
    assert b[0..0 + 4] == b[..4];
  }

  /** What can be encoded: at most 65535 items, every field within the width it is written in. */
  lemma EncodableIff(items: seq<MissionItem>)
    ensures Encodable(items) <==>
      |items| <= 65535 && forall item :: item in items ==>
        && -2147483648 <= item.x <= 2147483647 && -2147483648 <= item.y <= 2147483647
        && 0 <= item.seq_ <= 65535 && 0 <= item.command <= 65535
        && 0 <= item.targetSystem <= 255 && 0 <= item.targetComponent <= 255 && 0 <= item.frame <= 255
        && 0 <= item.current <= 255 && 0 <= item.autocontinue <= 255 && 0 <= item.missionType <= 255
  {
  }
}
