/**
 * The decoder's own test vectors, packet by packet, each from the decoder state the packets
 * before it leave. The tests are written against an older frame naming (`Newsync`, `Sw`, `Hw`);
 * here each packet is stated with the frames the decoder now produces.
 */
module ItmVectors {
  import opened Results
  import opened Itm
  import opened ItmLemmas

  /** The synchronisation sequence the decoder's tests start with. */
  const SYNC_BYTES: seq<bv8> := [0x00, 0x00, 0x00, 0x00, 0x00, 0x80]

  /** A new decoder after SYNC_BYTES: Idle, six bytes and one packet counted. */
  const AFTER_SYNC := Decoder(Idle, DEFAULT_INTERNAL.(lastBytes := 0x80,
    stats := ZERO_STATS.(inbytestotal := 6, inpackets := 1, itmsync := 1)))

  /** A new decoder after five zero bytes: still Unsynced, five bytes counted. */
  const AFTER_ZEROS := Decoder(Unsynced, DEFAULT_INTERNAL.(stats := ZERO_STATS.(inbytestotal := 5)))

  /** Five zero bytes leave a new decoder Unsynced, with nothing to report. */
  lemma ZerosVector()
    ensures FeedFrame(NEW_DECODER, [0, 0, 0, 0, 0]) == Feed(AFTER_ZEROS, Err(ShortData), 5)
  {
    ZerosShiftOut(0);
    UnsyncedSilent(NEW_DECODER, [0, 0, 0, 0, 0]);
  }

  /** Five zero bytes and 0x80 synchronise a new decoder. */
  lemma SyncVector()
    ensures var f := FeedFrame(NEW_DECODER, SYNC_BYTES);
      f.result == Ok(ITMFrame.Sync(1)) && f.used == 6 && f.dec == AFTER_SYNC
  {
    var zeros: seq<bv8> := [0, 0, 0, 0, 0];
    assert SYNC_BYTES == zeros + [0x80];
    ZerosVector();
    FeedFrameResume(NEW_DECODER, zeros, [0x80]);
    assert Step(AFTER_ZEROS, 0x80) == Tick(AFTER_SYNC, Some(ITMFrame.Sync(1)));
  }

  /** The GTS2 tests, packet by packet from whatever Idle decoder the previous packet left: a
      48-bit value, an overlong one, and a full 64-bit one. Each is stored as the global
      timestamp. */
  lemma Gts2Vector1(d: Decoder)
    requires Inv(d) && d.state == Idle
    ensures var f := FeedFrame(d, [0xb4, 0x84, 0x81, 0x82, 0x83, 0x01]);
      f.result == Ok(Globaltimestamp(false, 0x10608084)) && f.dec.i.gtimestamp == 0x10608084
  {
    var p: seq<bv8> := [0x84, 0x81, 0x82, 0x83, 0x01];
    assert [0xb4, 0x84, 0x81, 0x82, 0x83, 0x01] == [0xb4] + p;
    PlainBytes(d.i.lastBytes, [0xb4] + p);
    ContinuedPayloads();
    Gts2Packet(d, p);
    Gts2Value1();
  }

  lemma Gts2Vector2(d: Decoder)
    requires Inv(d) && d.state == Idle
    ensures var f := FeedFrame(d, [0xb4, 0x84, 0x81, 0x82, 0x83, 0x81, 0x01]);
      f.result == Ok(Globaltimestamp(false, 0x810608084)) && f.dec.i.gtimestamp == 0x810608084
  {
    var p: seq<bv8> := [0x84, 0x81, 0x82, 0x83, 0x81, 0x01];
    assert [0xb4, 0x84, 0x81, 0x82, 0x83, 0x81, 0x01] == [0xb4] + p;
    PlainBytes(d.i.lastBytes, [0xb4] + p);
    ContinuedPayloads();
    Gts2Packet(d, p);
    Gts2Value2();
  }

  lemma Gts2Vector3(d: Decoder)
    requires Inv(d) && d.state == Idle
    ensures var f := FeedFrame(d, [0xb4, 0x84, 0x81, 0x82, 0x83, 0x81, 0x81, 0x07]);
      f.result == Ok(Globaltimestamp(false, 0x1C0810608084)) && f.dec.i.gtimestamp == 0x1C0810608084
  {
    var p: seq<bv8> := [0x84, 0x81, 0x82, 0x83, 0x81, 0x81, 0x07];
    assert [0xb4, 0x84, 0x81, 0x82, 0x83, 0x81, 0x81, 0x07] == [0xb4] + p;
    PlainBytes(d.i.lastBytes, [0xb4] + p);
    ContinuedPayloads();
    Gts2Packet(d, p);
    Gts2Value3();
  }

  lemma Gts2Value1()
    ensures Groups([0x84, 0x81, 0x82, 0x83, 0x01], 0, 7) == 0x10608084
  {
  }

  lemma Gts2Value2()
    ensures Groups([0x84, 0x81, 0x82, 0x83, 0x81, 0x01], 0, 7) == 0x810608084
  {
  }

  lemma Gts2Value3()
    ensures Groups([0x84, 0x81, 0x82, 0x83, 0x81, 0x81, 0x07], 0, 7) == 0x1C0810608084
  {
  }

  /** The GTS1 tests, each from the Idle decoder the previous one left: each packet overwrites
      the fields it carries of the stored global timestamp (a short packet, a full one with the
      wrap bit, an overlong one, and one that replaces the low 14 bits). */
  lemma Gts1Vector1(d: Decoder)
    requires Inv(d) && d.state == Idle && d.i.gtimestamp == 0
    ensures var f := FeedFrame(d, [0x94, 0x42]);
      f.result == Ok(Globaltimestamp(false, 0x42)) && f.dec.i.gtimestamp == 0x42 && f.dec.state == Idle
  {
    assert [0x94, 0x42] == [0x94] + [0x42];
    PlainBytes(d.i.lastBytes, [0x94] + [0x42]);
    ContinuedPayloads();
    Gts1Packet(d, [0x42]);
    Gts1Values();
  }

  lemma Gts1Vector2(d: Decoder)
    requires Inv(d) && d.state == Idle && d.i.gtimestamp == 0x42
    ensures var f := FeedFrame(d, [0x94, 0xf3, 0x92, 0xd0, 0x4f]);
      f.result == Ok(Globaltimestamp(true, 0x1f40973)) && f.dec.i.gtimestamp == 0x1f40973 && f.dec.state == Idle
  {
    var p: seq<bv8> := [0xf3, 0x92, 0xd0, 0x4f];
    assert [0x94, 0xf3, 0x92, 0xd0, 0x4f] == [0x94] + p;
    PlainBytes(d.i.lastBytes, [0x94] + p);
    ContinuedPayloads();
    Gts1Packet(d, p);
    Gts1Values();
  }

  lemma Gts1Vector3(d: Decoder)
    requires Inv(d) && d.state == Idle && d.i.gtimestamp == 0x1f40973
    ensures var f := FeedFrame(d, [0x94, 0xf3, 0x92, 0xd0, 0xff, 0x22]);
      f.result == Ok(Globaltimestamp(true, 0x3f40973)) && f.dec.i.gtimestamp == 0x3f40973 && f.dec.state == Idle
  {
    var p: seq<bv8> := [0xf3, 0x92, 0xd0, 0xff, 0x22];
    assert [0x94, 0xf3, 0x92, 0xd0, 0xff, 0x22] == [0x94] + p;
    PlainBytes(d.i.lastBytes, [0x94] + p);
    ContinuedPayloads();
    Gts1Packet(d, p);
    Gts1Values();
  }

  /** The last GTS1 test ends in 0x7F, the last byte of the TPIU pattern; the 0x94 two bytes
      before it keeps that pattern from completing. */
  lemma Gts1Vector4(d: Decoder)
    requires Inv(d) && d.state == Idle && d.i.gtimestamp == 0x3f40973
    ensures var f := FeedFrame(d, [0x94, 0xff, 0x7f]);
      f.result == Ok(Globaltimestamp(false, 0x3f43fff)) && f.dec.i.gtimestamp == 0x3f43fff && f.dec.state == Idle
  {
    var p: seq<bv8> := [0xff, 0x7f];
    assert [0x94, 0xff, 0x7f] == [0x94] + p;
    NoTpiuAfter94(d.i.lastBytes);
    ContinuedPayloads();
    Gts1Packet(d, p);
    Gts1Values();
  }

  lemma NoTpiuAfter94(lb: bv64)
    ensures SyncFree(lb, [0x94, 0xff, 0x7f])
  {
    var l1 := ShiftIn(lb, 0x94);
    var l2 := ShiftIn(l1, 0xff);
    var l3 := ShiftIn(l2, 0x7f);
    NoPattern(lb, 0x94);
    NoPattern(l1, 0xff);
    assert (l3 >> 16) & 0xFF == 0x94;
    assert !IsTpiuSync(l3) && !IsItmSync(l3);
    assert [0x94, 0xff, 0x7f][1..] == [0xff, 0x7f] && [0xff, 0x7f][1..] == [0x7f] && [0x7f][1..] == [];
    assert SyncFree(l2, [0x7f]);
  }

  lemma Gts1Values()
    ensures (0 & !Gts1Mask(1)) | Gts1Bits([0x42]) == 0x42
    ensures (0x42 & !Gts1Mask(4)) | Gts1Bits([0xf3, 0x92, 0xd0, 0x4f]) == 0x1f40973
    ensures (0x1f40973 & !Gts1Mask(5)) | Gts1Bits([0xf3, 0x92, 0xd0, 0xff, 0x22]) == 0x3f40973
    ensures (0x3f40973 & !Gts1Mask(2)) | Gts1Bits([0xff, 0x7f]) == 0x3f43fff
  {
  }

  /** The single-byte local timestamp test: 0x30 is the timestamp 3. */
  lemma LtsVector2(d: Decoder)
    requires Inv(d) && d.state == Idle
    ensures FeedFrame(d, [0x30]).result == Ok(Timestamp(TSType.Sync, 3))
  {
    ShortTimestamp(d, 0x30);
  }

  /** The multi-byte local timestamp test as written: its header 0xA0 (1010_0000) is neither
      0???_0000 nor 11??_0000, so the decoder counts it as noise and reads the 0x85 after it as a
      one-byte data trace value header. */
  lemma LtsTestAsWritten(d: Decoder)
    requires Inv(d) && d.state == Idle
    ensures FeedFrame(d, [0xA0, 0x85, 0x82]).result == Ok(DataTraceValue(0, 0x82, 1, false))
  {
    var bytes: seq<bv8> := [0xA0, 0x85, 0x82];
    PlainBytes(d.i.lastBytes, bytes);
    PlainFeed(d, bytes);
    LtsTestTokens(d);
  }

  lemma LtsTestTokens(d: Decoder)
    requires Inv(d) && d.state == Idle
    ensures Tokens(d, [0xA0, 0x85, 0x82]).result == Ok(DataTraceValue(0, 0x82, 1, false))
  {
    assert [0xA0, 0x85, 0x82] == [0xA0] + ([0x85] + [0x82]);
    NoiseThen(d, 0xA0, [0x85] + [0x82]);
    DataTraceTokens(Move(d, 0xA0).dec, 0x85, [0x82]);
    Header85();
  }

  /** 0x85 is a one-byte data value header for comparator 0, reading. */
  lemma Header85()
    ensures IsDataTraceHeader(0x85) && DtType(0x85) == DataValMatch && Size(0x85) == 1
    ensures (0x85 as bv8 >> 4) & 3 == 0 && 0x85 as bv8 & 8 == 0
    ensures DataTraceFrame(0, Pack(0, [0x82], 0), 1, DataValMatch, false) == DataTraceValue(0, 0x82, 1, false)
  {
    PackValues();
  }

  /** The same test with the local timestamp header 0xD0 (11??_0000, type 1) it evidently
      means: the value 0x4105, and an overlong packet whose fifth group is dropped. */
  lemma LtsVector1(d: Decoder)
    requires Inv(d) && d.state == Idle
    ensures FeedFrame(d, [0xD0, 0x85, 0x82, 0x01]).result == Ok(Timestamp(TSDelayed, 0x4105))
  {
    var p: seq<bv8> := [0x85, 0x82, 0x01];
    assert [0xD0, 0x85, 0x82, 0x01] == [0xD0] + p;
    PlainBytes(d.i.lastBytes, [0xD0] + p);
    ContinuedPayloads();
    LtsPacket(d, 0xD0, p);
    LtsValues();
  }

  lemma LtsVector1Overlong(d: Decoder)
    requires Inv(d) && d.state == Idle
    ensures FeedFrame(d, [0xD0, 0x85, 0x85, 0x85, 0x85, 0x85, 0x00]).result == Ok(Timestamp(TSDelayed, 0xA14285))
  {
    var p: seq<bv8> := [0x85, 0x85, 0x85, 0x85, 0x85, 0x00];
    assert [0xD0, 0x85, 0x85, 0x85, 0x85, 0x85, 0x00] == [0xD0] + p;
    PlainBytes(d.i.lastBytes, [0xD0] + p);
    ContinuedPayloads();
    LtsPacket(d, 0xD0, p);
    LtsValues();
  }

  lemma LtsValues()
    ensures Groups([0x85, 0x82, 0x01], 0, 4) == 0x4105
    ensures Groups([0x85, 0x85, 0x85, 0x85, 0x85, 0x00], 0, 4) == 0xA14285
  {
  }

  /** The software source tests, packet by packet from an Idle decoder on page 0: one byte to
      port 0, four bytes to port 18, two bytes to port 30. */
  lemma SwSourceVector1(d: Decoder)
    requires Inv(d) && d.state == Idle && d.i.pageRegister == 0
    ensures FeedFrame(d, [0x01, 0x22]).result == Ok(Instrumentation(0, 0x22, 1))
  {
    assert [0x01, 0x22] == [0x01] + [0x22];
    PlainBytes(d.i.lastBytes, [0x01] + [0x22]);
    InstrumentationPacket(d, 0x01, [0x22]);
    PackValues();
  }

  lemma SwSourceVector2(d: Decoder)
    requires Inv(d) && d.state == Idle && d.i.pageRegister == 0
    ensures FeedFrame(d, [0x93, 0x11, 0x22, 0x33, 0x44]).result == Ok(Instrumentation(18, 0x44332211, 4))
  {
    var p: seq<bv8> := [0x11, 0x22, 0x33, 0x44];
    assert [0x93, 0x11, 0x22, 0x33, 0x44] == [0x93] + p;
    PlainBytes(d.i.lastBytes, [0x93] + p);
    InstrumentationPacket(d, 0x93, p);
    PackValues();
  }

  lemma SwSourceVector3(d: Decoder)
    requires Inv(d) && d.state == Idle && d.i.pageRegister == 0
    ensures FeedFrame(d, [0xF2, 0x99, 0x12]).result == Ok(Instrumentation(30, 0x1299, 2))
  {
    var p: seq<bv8> := [0x99, 0x12];
    assert [0xF2, 0x99, 0x12] == [0xF2] + p;
    PlainBytes(d.i.lastBytes, [0xF2] + p);
    InstrumentationPacket(d, 0xF2, p);
    PackValues();
  }

  /** The page tests: page 1 then one byte to port 0 gives port 32; page 7 then four bytes to
      port 18 gives port 242. */
  lemma SwPageVector1(d: Decoder)
    requires Inv(d) && d.state == Idle
    ensures FeedFrame(d, [0x1C, 0x01, 0x22]).result == Ok(Instrumentation(32, 0x22, 1))
  {
    assert [0x1C, 0x01, 0x22] == [0x1C] + ([0x01] + [0x22]);
    PagedPacket(d, 0x1C, 0x01, [0x22]);
    PackValues();
  }

  lemma SwPageVector2(d: Decoder)
    requires Inv(d) && d.state == Idle
    ensures FeedFrame(d, [0x7C, 0x93, 0x11, 0x22, 0x33, 0x44]).result == Ok(Instrumentation(242, 0x44332211, 4))
  {
    var p: seq<bv8> := [0x11, 0x22, 0x33, 0x44];
    assert [0x7C, 0x93, 0x11, 0x22, 0x33, 0x44] == [0x7C] + ([0x93] + p);
    PagedPacket(d, 0x7C, 0x93, p);
    PackValues();
  }

  /** The extension tests, packet by packet from an Idle decoder: one payload byte, three payload
      bytes, and the same with the source bit set. */
  lemma XtnVector1(d: Decoder)
    requires Inv(d) && d.state == Idle
    ensures FeedFrame(d, [0x88, 0x22]).result == Ok(Xtn(false, 1, 0x110))
  {
    assert [0x88, 0x22] == [0x88] + [0x22];
    PlainBytes(d.i.lastBytes, [0x88] + [0x22]);
    ContinuedPayloads();
    XtnPacket(d, 0x88, [0x22]);
    XtnValues();
  }

  lemma XtnVector2(d: Decoder)
    requires Inv(d) && d.state == Idle
    ensures FeedFrame(d, [0xA8, 0x93, 0x82, 0x23]).result == Ok(Xtn(false, 3, 0x46089A))
  {
    var p: seq<bv8> := [0x93, 0x82, 0x23];
    assert [0xA8, 0x93, 0x82, 0x23] == [0xA8] + p;
    PlainBytes(d.i.lastBytes, [0xA8] + p);
    ContinuedPayloads();
    XtnPacket(d, 0xA8, p);
    XtnValues();
  }

  lemma XtnVector3(d: Decoder)
    requires Inv(d) && d.state == Idle
    ensures FeedFrame(d, [0xAC, 0x93, 0x82, 0x23]).result == Ok(Xtn(true, 3, 0x46089A))
  {
    var p: seq<bv8> := [0x93, 0x82, 0x23];
    assert [0xAC, 0x93, 0x82, 0x23] == [0xAC] + p;
    PlainBytes(d.i.lastBytes, [0xAC] + p);
    ContinuedPayloads();
    XtnPacket(d, 0xAC, p);
    XtnValues();
  }

  lemma XtnValues()
    ensures XtnGroups([0x22], 0) == 0x110 && XtnGroups([0x93, 0x82, 0x23], 0) == 0x460898
    ensures XtnLen(0, 1) == 1 && XtnLen(0, 3) == 3
  {
  }

  /** The overflow test: after synchronising, 0x70 reports the first overflow. */
  lemma OverflowVector()
    ensures FeedFrame(AFTER_SYNC, [0x70]).result == Ok(Overflow(1))
  {
    OverflowPacket(AFTER_SYNC);
  }

  /** The no-sync test: 0x20 before 0x80 breaks the pattern, so a new decoder reports nothing. */
  lemma NoSyncVector()
    ensures FeedFrame(NEW_DECODER, [0x00, 0x00, 0x00, 0x00, 0x20, 0x80]).result == Err(ShortData)
  {
    var a: seq<bv8> := [0x00, 0x00, 0x00, 0x00, 0x20];
    assert a + [0x80] == [0x00, 0x00, 0x00, 0x00, 0x20, 0x80];
    PlainBytes(0, a);
    NoSyncRegister();
    assert !IsItmSync(ShiftIn(0x20, 0x80));
    assert SyncFree(0x20, [0x80]);
    SyncFreeAppend(0, a, [0x80]);
    UnsyncedSilent(NEW_DECODER, a + [0x80]);
  }

  lemma NoSyncRegister()
    ensures ShiftAll(0, [0x00, 0x00, 0x00, 0x00, 0x20]) == 0x20
  {
    var a: seq<bv8> := [0x00, 0x00, 0x00, 0x00, 0x20];
    assert a[1..] == [0x00, 0x00, 0x00, 0x20] && a[2..] == [0x00, 0x00, 0x20] && a[3..] == [0x00, 0x20];
    assert a[4..] == [0x20] && a[5..] == [];
    assert ShiftAll(0, a) == ShiftAll(0, a[1..]) == ShiftAll(0, a[2..]) == ShiftAll(0, a[3..])
        == ShiftAll(0, a[4..]) == ShiftAll(0x20, a[5..]);
  }

  lemma {:induction false} SyncFreeAppend(lb: bv64, a: seq<bv8>, b: seq<bv8>)
    requires SyncFree(lb, a) && SyncFree(ShiftAll(lb, a), b)
    ensures SyncFree(lb, a + b)
    decreases |a|
  {
    if a == [] {
      assert a + b == b;
    } else {
      assert (a + b)[0] == a[0] && (a + b)[1..] == a[1..] + b;
      SyncFreeAppend(ShiftIn(lb, a[0]), a[1..], b);
    }
  }

  /** The TPIU sync test: 0xFF 0xFF 0xFF 0x7F completes the TPIU pattern, reported first. */
  lemma TpiuSyncVector()
    ensures FeedFrame(NEW_DECODER, [0x00, 0xff, 0xff, 0xff, 0x7f, 0x80]).result == Ok(TPIUSync(1))
  {
    var a: seq<bv8> := [0x00, 0xff, 0xff, 0xff];
    var b: seq<bv8> := [0x7f, 0x80];
    assert a + b == [0x00, 0xff, 0xff, 0xff, 0x7f, 0x80];
    PlainBytes(0, a);
    UnsyncedSilent(NEW_DECODER, a);
    var d1 := FeedFrame(NEW_DECODER, a).dec;
    assert d1.i.lastBytes == ShiftAll(0, a) == 0x00FF_FFFF;
    FeedFrameResume(NEW_DECODER, a, b);
    assert IsTpiuSync(ShiftIn(d1.i.lastBytes, 0x7f));
    SyncIff(d1, 0x7f);
  }

  /** The hardware source test, as the decoder reads its bytes: 0x05 is an event counter packet,
      0x97 a four-byte data trace value for comparator 1, and 0xF6, which no arm accepts, is noise
      before the one-byte instrumentation packet 0x99 0x12 to port 19. */
  lemma HwSourceVector1(d: Decoder)
    requires Inv(d) && d.state == Idle
    ensures FeedFrame(d, [0x05, 0x22]).result == Ok(EventC(false, true, false, false, false, true))
  {
    PlainBytes(d.i.lastBytes, [0x05, 0x22]);
    PlainFeed(d, [0x05, 0x22]);
    EventTokens(d, 0x22);
  }

  lemma HwSourceVector2(d: Decoder)
    requires Inv(d) && d.state == Idle
    ensures FeedFrame(d, [0x97, 0x11, 0x22, 0x33, 0x44]).result == Ok(DataTraceValue(1, 0x44332211, 4, false))
  {
    var p: seq<bv8> := [0x11, 0x22, 0x33, 0x44];
    assert [0x97, 0x11, 0x22, 0x33, 0x44] == [0x97] + p;
    Header97();
    PlainBytes(d.i.lastBytes, [0x97] + p);
    DataTracePacket(d, 0x97, p);
  }

  /** 0x97 (10??_?1??) announces a four-byte data value from comparator 1, a read. */
  lemma Header97()
    ensures IsDataTraceHeader(0x97) && DtType(0x97) == DataValMatch && Size(0x97) == 4
    ensures (0x97 as bv8 >> 4) & 3 == 1 && 0x97 as bv8 & 8 == 0
    ensures DataTraceFrame(1, Pack(0, [0x11, 0x22, 0x33, 0x44], 0), 4, DataValMatch, false)
      == DataTraceValue(1, 0x44332211, 4, false)
  {
    PackValues();
  }

  lemma HwSourceVector3(d: Decoder)
    requires Inv(d) && d.state == Idle && d.i.pageRegister == 0
    ensures FeedFrame(d, [0xF6, 0x99, 0x12]).result == Ok(Instrumentation(19, 0x12, 1))
  {
    var bytes: seq<bv8> := [0xF6, 0x99, 0x12];
    PlainBytes(d.i.lastBytes, bytes);
    PlainFeed(d, bytes);
    HwSourceTokens3(d);
  }

  lemma HwSourceTokens3(d: Decoder)
    requires Inv(d) && d.state == Idle && d.i.pageRegister == 0
    ensures Tokens(d, [0xF6, 0x99, 0x12]).result == Ok(Instrumentation(19, 0x12, 1))
  {
    assert [0xF6, 0x99, 0x12] == [0xF6] + ([0x99] + [0x12]);
    NoiseThen(d, 0xF6, [0x99] + [0x12]);
    InstrumentationTokens(Move(d, 0xF6).dec, 0x99, [0x12]);
    PackValues();
  }

  /** The timestamp and extension payloads of the tests: continuation bytes, then a last one. */
  lemma ContinuedPayloads()
    ensures Continued([0x42]) && Continued([0x22])
    ensures Continued([0x84, 0x81, 0x82, 0x83, 0x01])
    ensures Continued([0x84, 0x81, 0x82, 0x83, 0x81, 0x01])
    ensures Continued([0x84, 0x81, 0x82, 0x83, 0x81, 0x81, 0x07])
    ensures Continued([0xf3, 0x92, 0xd0, 0x4f]) && Continued([0xf3, 0x92, 0xd0, 0xff, 0x22]) && Continued([0xff, 0x7f])
    ensures Continued([0x85, 0x82, 0x01]) && Continued([0x85, 0x85, 0x85, 0x85, 0x85, 0x00])
    ensures Continued([0x93, 0x82, 0x23])
  {
  }

  lemma PackValues()
    ensures Pack(0, [0x22], 0) == 0x22 && Pack(0, [0x12], 0) == 0x12 && Pack(0, [0x82], 0) == 0x82
    ensures Pack(0, [0x11, 0x22, 0x33, 0x44], 0) == 0x44332211
    ensures Pack(0, [0x99, 0x12], 0) == 0x1299
  {
  }
}
