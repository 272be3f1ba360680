/**
 * The ITM/DWT packet decoder of Appendix F of the Arm v8-M Architecture Reference Manual
 * (DDI0553B.v): a byte-at-a-time state machine that hunts for the ITM synchronisation pattern,
 * dispatches each packet on its header byte, collects the payload bytes the header announces,
 * and emits one frame per complete packet. A 64-bit shift register of the last eight bytes is
 * checked for the TPIU and ITM synchronisation patterns before any state sees the byte.
 *
 * Bit-carrying values keep the widths of the decoder (bv8, bv16, bv32, bv64); counters and small
 * lengths are naturals.
 */
module Itm {
  import opened Results

  const ITM_SYNCMASK: bv64 := 0xFFFF_FFFF_FFFF
  const ITM_SYNCPATTERN: bv64 := 0x0000_0000_0080
  const TPIU_SYNCMASK: bv64 := 0xFFFF_FFFF
  const TPIU_SYNCPATTERN: bv64 := 0xFFFF_FF7F

  datatype ITMError = ShortData | Unimplemented

  datatype TSType = Sync | TSDelayed | DataDelayed | BothDelayed

  datatype ExceptionEvent = Unknown | Entry | Exit | Returned

  /** The decoded packets. The port number of an instrumentation packet is called `addr` by the
      decoder; here it is `port`, because `addr` already names the 32-bit data trace address. */
  datatype ITMFrame =
    | Empty
    | Timestamp(ttype: TSType, ts: bv64)
    | Globaltimestamp(hasWrapped: bool, ts: bv64)
    | Instrumentation(port: bv8, data: bv32, len: bv8)
    | Exception(no: bv16, event: ExceptionEvent)
    | DataTracePC(index: bv8, addr: bv32, len: bv8)
    | DataTraceAddr(index: bv8, daddr: bv32, len: bv8)
    | DataTraceValue(index: bv8, addr: bv32, len: bv8, wnr: bool)
    | DataTraceMatch(index: bv8)
    | PCSleep(prohibited: bool)
    | PCSample(addr: bv32)
    | Xtn(source: bool, len: bv8, ex: bv32)
    | TPIUSync(count: nat)
    | Sync(count: nat)
    | Overflow(count: nat)
    | EventC(cpicntWrapped: bool, exccntWrapped: bool, sleepcntWrapped: bool,
             lsucntWrapped: bool, foldcntWrapped: bool, postcntWrapped: bool)
    | PMUOverflow(ovf: bv8)

  datatype ITMStats = ITMStats(
    inbytestotal: nat, inpackets: nat, tpiusync: nat, itmsync: nat,
    instrupkts: nat, overflow: nat, ts: nat, noise: nat)

  /** The sticky registers shared by all states. */
  datatype ITMInternal = ITMInternal(
    lastBytes: bv64, pageRegister: bv8, contextIdlen: bv8, timestamp: bv32, gtimestamp: bv64,
    stats: ITMStats)

  const ZERO_STATS := ITMStats(0, 0, 0, 0, 0, 0, 0, 0)
  const DEFAULT_INTERNAL := ITMInternal(0, 0, 0, 0, 0, ZERO_STATS)

  datatype DataMatchType = Match | PCMatch | DataAddrMatch | DataValMatch

  /** The states of the machine, each with the fields it accumulates a packet in. */
  datatype PState =
    | Unsynced
    | Idle
    | InInstrumentation(target: bv8, count: bv8, port: bv8, data: bv32)
    | InXtn(ex: bv32, source: bool, bitcount: bv8, count: bv8)
    | InLts(count: bv8, ttypen: bv8, ts: bv64)
    | InGts2(count: bv8, gts: bv64)
    | InGts1(count: bv8, gts: bv64, wrap: bool)
    | InException(no: bv16, count: bv8, event: bv8)
    | InDataTrace(index: bv8, len: bv8, count: bv8, addr: bv32, dtType: DataMatchType, wnr: bool)
    | InPCSample(len: bv8, count: bv8, addr: bv32)
    | InEvent
    | InPMUOverflow

  // ---------------------------------------------------------------------------------------------
  // Header dispatch.

  /** The arms of the Idle dispatch table, in the order they are tried. */
  datatype Header =
    | Ignored | OverflowHdr | Gts1Hdr | Gts2Hdr | LtsHdr | XtnHdr | EventHdr | Noise
    | DataTraceHdr | ExceptionHdr | InstrumentationHdr | PCSampleHdr | PMUOverflowHdr

  /** A bit pattern such as "01??_?1??": the bits under `mask` must equal `value`. */
  predicate Fits(tok: bv8, mask: bv8, value: bv8)
  {
    tok & mask == value
  }

  /** The first arm of the dispatch table whose pattern the header byte fits. The arms that take
      a payload size from the header see nonzero size bits, and the data trace arm (whose kind
      decoder panics on any other header) sees only data trace headers. */
  function Classify(tok: bv8): (h: Header)
    ensures h == DataTraceHdr ==> IsDataTraceHeader(tok) && tok & 3 != 0
    ensures h == InstrumentationHdr || h == PCSampleHdr ==> tok & 3 != 0
  {
    if tok == 0x00 then Ignored                      // 0000_0000
    else if tok == 0x70 then OverflowHdr             // 0111_0000
    else if tok == 0x94 then Gts1Hdr                 // 1001_0100
    else if tok == 0xB4 then Gts2Hdr                 // 1011_0100
    else if Fits(tok, 0x8F, 0x00) then LtsHdr        // 0???_0000
    else if Fits(tok, 0xCF, 0xC0) then LtsHdr        // 11??_0000
    else if Fits(tok, 0x0B, 0x08) then XtnHdr        // ????_1?00
    else if tok == 0x05 then EventHdr                // 0000_0101
    else if Fits(tok, 0x03, 0x00) then Noise         // ????_??00
    else if Fits(tok, 0xC4, 0x44) then DataTraceHdr  // 01??_?1??
    else if tok == 0x0E then ExceptionHdr            // 0000_1110
    else if Fits(tok, 0xC4, 0x84) then DataTraceHdr  // 10??_?1??
    else if Fits(tok, 0x04, 0x00) then InstrumentationHdr  // ????_?0??
    else if Fits(tok, 0xFD, 0x15) then PCSampleHdr   // 0001_01?1
    else if tok == 0x1D then PMUOverflowHdr          // 0001_1101
    else Noise
  }

  /** Each arm of the dispatch table described by the bits alone, independently of the order
      in which the arms are tried: the table is total, and the data trace arm (whose kind
      decoder panics on any other header) is reached only by data trace headers. */
  lemma ClassifyExact(tok: bv8)
    ensures Classify(tok) == Ignored <==> tok == 0x00
    ensures Classify(tok) == OverflowHdr <==> tok == 0x70
    ensures Classify(tok) == Gts1Hdr <==> tok == 0x94
    ensures Classify(tok) == Gts2Hdr <==> tok == 0xB4
    ensures Classify(tok) == LtsHdr <==> tok & 0x0F == 0 && tok & 0xC0 != 0x80 && tok != 0x00 && tok != 0x70
    ensures Classify(tok) == XtnHdr <==> tok & 0x0B == 0x08
    ensures Classify(tok) == EventHdr <==> tok == 0x05
    ensures Classify(tok) == ExceptionHdr <==> tok == 0x0E
    ensures Classify(tok) == PMUOverflowHdr <==> tok == 0x1D
    ensures Classify(tok) == PCSampleHdr <==> tok == 0x15 || tok == 0x17
    ensures Classify(tok) == InstrumentationHdr <==> tok & 4 == 0 && tok & 3 != 0
    ensures Classify(tok) == DataTraceHdr <==> IsDataTraceHeader(tok) && tok & 3 != 0
    ensures Classify(tok) == Noise <==>
      || (tok & 3 == 0 && tok & 0x0B != 0x08 && tok & 0x0F != 0 && tok != 0x94 && tok != 0xB4)
      || (tok & 0xCF == 0x80)
      || (tok & 3 != 0 && tok & 4 != 0 && !IsDataTraceHeader(tok)
          && tok != 0x05 && tok != 0x0E && tok != 0x15 && tok != 0x17 && tok != 0x1D)
  {
  }

  /** The payload size announced by the two low bits of a header: 1, 2, or 4 for 0b11. */
  function Size(tok: bv8): (n: bv8)
    ensures tok & 3 != 0 ==> (n == 1 || n == 2 || n == 4)
  {
    if tok & 3 == 3 then 4 else tok & 3
  }

  /** A header the data trace arms accept. */
  predicate IsDataTraceHeader(tok: bv8)
  {
    Fits(tok, 0xC4, 0x44) || Fits(tok, 0xC4, 0x84)
  }

  /** The kind of data trace packet; the decoder panics on any other header, which its
      dispatcher never passes. */
  function DtType(tok: bv8): (t: DataMatchType)
    requires IsDataTraceHeader(tok)
    ensures t == DataValMatch <==> tok & 0x80 != 0
    ensures t == Match <==> tok & 0xCF == 0x45
    ensures t == PCMatch <==> tok & 0xCC == 0x44 && tok & 0xCF != 0x45
    ensures t == DataAddrMatch <==> tok & 0xCC == 0x4C
  {
    if Fits(tok, 0xCF, 0x45) then Match                // 01??_0101
    else if Fits(tok, 0xCC, 0x44) then PCMatch         // 01??_01??
    else if Fits(tok, 0xCC, 0x4C) then DataAddrMatch   // 01??_11??
    else if Fits(tok, 0xC4, 0x84) then DataValMatch    // 10??_?1??
    else assert false; Match
  }

  // ---------------------------------------------------------------------------------------------
  // The states.

  /** What a state does with one byte: the state to continue in, the frame it completes, and the
      shared registers after it. */
  datatype Out = Out(state: PState, frame: Option<ITMFrame>, i: ITMInternal)

  /** The bounds each state keeps on its counters: they keep every shift inside its word. */
  predicate StateInv(st: PState)
  {
    match st
    case InInstrumentation(target, count, port, _) => (target == 1 || target == 2 || target == 4) && count < target && port < 32
    case InXtn(_, _, bitcount, count) => count <= 5 && bitcount == 3 + 7 * count
    case InLts(count, ttypen, _) => count <= 4 && ttypen < 4
    case InGts2(count, _) => count <= 7
    case InGts1(count, _, _) => count <= 4
    case InException(_, count, _) => count <= 1
    case InDataTrace(_, len, count, _, _, _) => (len == 1 || len == 2 || len == 4) && count < len
    case InPCSample(len, count, _) => (len == 1 || len == 2 || len == 4) && count < len
    case _ => true
  }

  function WithStats(i: ITMInternal, s: ITMStats): ITMInternal
  {
    i.(stats := s)
  }

  /** The shared registers a state never touches, and the counters only the decoder keeps. */
  predicate SameShared(a: ITMInternal, b: ITMInternal)
  {
    && a.lastBytes == b.lastBytes && a.contextIdlen == b.contextIdlen
    && a.stats.inbytestotal == b.stats.inbytestotal && a.stats.inpackets == b.stats.inpackets
    && a.stats.tpiusync == b.stats.tpiusync && a.stats.itmsync == b.stats.itmsync
  }

  /** A state completes packets only; the synchronisation frames come from the decoder. */
  predicate NoSyncFrame(frame: Option<ITMFrame>)
  {
    frame.Some? ==> !frame.value.Sync? && !frame.value.TPIUSync?
  }

  /** Every shared register except the global timestamp is unchanged. */
  predicate KeepsRegisters(a: ITMInternal, b: ITMInternal)
  {
    && a.lastBytes == b.lastBytes && a.pageRegister == b.pageRegister && a.contextIdlen == b.contextIdlen
    && a.timestamp == b.timestamp && a.stats == b.stats
  }

  /** A local timestamp header: bits 6:4 are the whole timestamp when bit 7 is clear, otherwise
      bits 5:4 are its type and the value follows. */
  function LtsHeader(tok: bv8, i: ITMInternal): (o: Out)
    ensures StateInv(o.state) && o.i == i && NoSyncFrame(o.frame) && !o.state.InGts1?
  {
    if tok & 0x80 == 0 then
      Out(Idle, Some(Timestamp(TSType.Sync, ((tok >> 4) & 7) as bv64)), i)
    else
      Out(InLts(0, (tok >> 4) & 3, 0), None, i)
  }

  /** The page selected by a page extension header, a multiple of 32. */
  function PageOf(tok: bv8): (r: bv8)
    ensures r & 0x1f == 0
  {
    32 * ((tok >> 4) & 7)
  }

  /** An extension header: with bit 7 clear it is complete, and with bit 2 set it selects the
      stimulus port page; with bit 7 set the extension value follows. */
  function XtnHeader(tok: bv8, i: ITMInternal): (o: Out)
    requires i.pageRegister & 0x1f == 0
    ensures StateInv(o.state) && o.i.pageRegister & 0x1f == 0 && NoSyncFrame(o.frame) && !o.state.InGts1?
    ensures o.i == i.(pageRegister := o.i.pageRegister)
    ensures tok & 0x80 == 0 ==> o.state == Idle
    ensures tok & 0x84 == 0x04 ==> o.frame.None? && o.i.pageRegister == PageOf(tok)
    ensures tok & 0x84 == 0x00 ==> o.frame == Some(Xtn(false, 0, ((tok >> 4) as bv32) & 7)) && o.i == i
    ensures tok & 0x80 != 0 ==>
      o.frame.None? && o.i == i && o.state.InXtn? &&
      o.state.ex == ((tok >> 4) as bv32) & 7 && o.state.source == (tok & 4 != 0)
  {
    if tok & 0x80 == 0 then
      if tok & 4 != 0 then
        Out(Idle, None, i.(pageRegister := PageOf(tok)))
      else
        Out(Idle, Some(Xtn(tok & 4 != 0, 0, ((tok >> 4) as bv32) & 7)), i)
    else
      Out(InXtn(((tok >> 4) as bv32) & 7, tok & 4 != 0, 3, 0), None, i)
  }

  /** The Idle state: start the packet the header announces. */
  function IdleToken(tok: bv8, i: ITMInternal): (o: Out)
    requires i.pageRegister & 0x1f == 0
    ensures StateInv(o.state) && o.i.pageRegister & 0x1f == 0
    ensures o.state.InGts1? ==> o.state.gts == o.i.gtimestamp
    ensures SameShared(o.i, i) && NoSyncFrame(o.frame)
  {
    match Classify(tok)
    case EventHdr => HardwareHeader(tok, i)
    case DataTraceHdr => HardwareHeader(tok, i)
    case ExceptionHdr => HardwareHeader(tok, i)
    case PCSampleHdr => HardwareHeader(tok, i)
    case PMUOverflowHdr => HardwareHeader(tok, i)
    case _ => SoftwareHeader(tok, i)
  }

  /** The headers of software source packets, timestamps and synchronisation-free extensions,
      and the bytes that start nothing. */
  function SoftwareHeader(tok: bv8, i: ITMInternal): (o: Out)
    requires i.pageRegister & 0x1f == 0
    requires Classify(tok) !in {EventHdr, DataTraceHdr, ExceptionHdr, PCSampleHdr, PMUOverflowHdr}
    ensures StateInv(o.state) && o.i.pageRegister & 0x1f == 0
    ensures o.state.InGts1? ==> o.state.gts == o.i.gtimestamp
    ensures SameShared(o.i, i) && NoSyncFrame(o.frame)
  {
    match Classify(tok)
    case Ignored => Out(Idle, None, i)
    case OverflowHdr =>
      var s := i.stats.(overflow := i.stats.overflow + 1);
      Out(Idle, Some(Overflow(s.overflow)), WithStats(i, s))
    case Gts1Hdr => Out(InGts1(0, i.gtimestamp, false), None, i)
    case Gts2Hdr => Out(InGts2(0, 0), None, i)
    case LtsHdr => LtsHeader(tok, WithStats(i, i.stats.(ts := i.stats.ts + 1)))
    case XtnHdr => XtnHeader(tok, i)
    case Noise => Out(Idle, None, WithStats(i, i.stats.(noise := i.stats.noise + 1)))
    case InstrumentationHdr =>
      Out(InInstrumentation(Size(tok), 0, (tok >> 3) & 0x1f, 0), None,
          WithStats(i, i.stats.(instrupkts := i.stats.instrupkts + 1)))
  }

  /** The headers of hardware source packets: they only select the state that collects the payload. */
  function HardwareHeader(tok: bv8, i: ITMInternal): (o: Out)
    requires Classify(tok) in {EventHdr, DataTraceHdr, ExceptionHdr, PCSampleHdr, PMUOverflowHdr}
    ensures StateInv(o.state) && !o.state.InGts1? && o.i == i && o.frame.None?
  {
    match Classify(tok)
    case EventHdr => Out(InEvent, None, i)
    case DataTraceHdr =>
      Out(InDataTrace((tok >> 4) & 3, Size(tok), 0, 0, DtType(tok), tok & 8 != 0), None, i)
    case ExceptionHdr => Out(InException(0, 0, 0), None, i)
    case PCSampleHdr => Out(InPCSample(Size(tok), 0, 0), None, i)
    case PMUOverflowHdr => Out(InPMUOverflow, None, i)
  }

  function TimestampType(ttypen: bv8): TSType
  {
    match ttypen
    case 0 => TSType.Sync
    case 1 => TSDelayed
    case 2 => DataDelayed
    case _ => BothDelayed
  }

  function ExceptionEventOf(tok: bv8): ExceptionEvent
  {
    match (tok >> 4) & 3
    case 1 => Entry
    case 2 => Exit
    case 3 => Returned
    case _ => Unknown
  }

  /** A payload byte ORed in as byte number `count` of a little-endian word. */
  function PutByte(word: bv32, count: bv8, tok: bv8): (r: bv32)
    requires count < 4
    ensures r & !(0xFF << (8 * count)) == word & !(0xFF << (8 * count))
  {
    word | ((tok as bv32) << (8 * count))
  }

  /** An instrumentation payload byte: little-endian into `data` until `target` bytes are in;
      the port is offset by the page register when the packet completes. */
  function InstrumentationToken(target: bv8, count: bv8, port: bv8, data: bv32, tok: bv8, i: ITMInternal): (o: Out)
    requires StateInv(InInstrumentation(target, count, port, data))
    ensures StateInv(o.state) && !o.state.InGts1? && o.i == i && NoSyncFrame(o.frame)
  {
    var count1 := if count <= 4 then count + 1 else count;
    var data1 := if count <= 4 then PutByte(data, count, tok) else data;
    if count1 == target then
      Out(Idle, Some(Instrumentation(port + i.pageRegister, data1, target)), i)
    else
      Out(InInstrumentation(target, count1, port, data1), None, i)
  }

  /** An extension payload byte: seven bits each into `ex` above the three of the header (all
      eight bits of a fifth byte, of which a 32-bit word keeps one); a clear top bit ends it. */
  function XtnToken(ex: bv32, source: bool, bitcount: bv8, count: bv8, tok: bv8, i: ITMInternal): (o: Out)
    requires StateInv(InXtn(ex, source, bitcount, count))
    ensures StateInv(o.state) && !o.state.InGts1? && o.i == i && NoSyncFrame(o.frame)
  {
    var ex1 := if count <= 4 then XtnBits(ex, count, bitcount, tok) else ex;
    var count1 := if count <= 4 then count + 1 else count;
    var bitcount1 := if count <= 4 then bitcount + 7 else bitcount;
    if tok & 0x80 == 0 then Out(Idle, Some(Xtn(source, count1, ex1)), i)
    else Out(InXtn(ex1, source, bitcount1, count1), None, i)
  }

  /** Extension byte number `count` (from 0) ORed in at bit `bitcount`: seven bits of each of
      the first four, the whole of the fifth. */
  function XtnBits(ex: bv32, count: bv8, bitcount: bv8, tok: bv8): bv32
    requires count <= 4 && bitcount == 3 + 7 * count
  {
    if count < 4 then ex | (((tok & 0x7f) as bv32) << bitcount)
    else ex | ((tok as bv32) << bitcount)
  }

  /** A local timestamp byte: seven bits each, at most four bytes counted; a clear top bit ends it. */
  function LtsToken(count: bv8, ttypen: bv8, ts: bv64, tok: bv8, i: ITMInternal): (o: Out)
    requires StateInv(InLts(count, ttypen, ts))
    ensures StateInv(o.state) && !o.state.InGts1? && o.i == i && NoSyncFrame(o.frame)
  {
    var ts1 := if count < 4 then Group7(ts, count, tok) else ts;
    var count1 := if count < 4 then count + 1 else count;
    if tok & 0x80 == 0 then Out(Idle, Some(Timestamp(TimestampType(ttypen), ts1)), i)
    else Out(InLts(count1, ttypen, ts1), None, i)
  }

  /** Seven more bits of a timestamp, as group number `count` (from 0): below group 4 the value
      stays under 2^28, below group 7 under 2^49. */
  function Group7(ts: bv64, count: bv8, tok: bv8): (r: bv64)
    requires count < 7
    ensures count < 4 && ts < 0x1000_0000 ==> r < 0x1000_0000
    ensures ts < 0x2_0000_0000_0000 ==> r < 0x2_0000_0000_0000
  {
    ts | (((tok & 0x7f) as bv64) << (7 * count))
  }

  /** A GTS2 byte: seven bits each, at most seven bytes counted; the completed value becomes the
      global timestamp. */
  function Gts2Token(count: bv8, gts: bv64, tok: bv8, i: ITMInternal): (o: Out)
    requires StateInv(InGts2(count, gts))
    ensures StateInv(o.state) && !o.state.InGts1? && KeepsRegisters(o.i, i) && NoSyncFrame(o.frame)
    ensures match o.frame
      case Some(f) => f.Globaltimestamp? && !f.hasWrapped && o.i == i.(gtimestamp := f.ts)
      case None => o.i == i
  {
    var gts1 := if count < 7 then Group7(gts, count, tok) else gts;
    var count1 := if count < 7 then count + 1 else count;
    if tok & 0x80 == 0 then Out(Idle, Some(Globaltimestamp(false, gts1)), i.(gtimestamp := gts1))
    else Out(InGts2(count1, gts1), None, i)
  }

  /** Replace the `mask`-wide field at bit `shift` of `x` with the low bits of `v`. */
  function SetField(x: bv64, mask: bv64, shift: bv8, v: bv8): bv64
    requires shift <= 21
  {
    (x & !(mask << shift)) | (((v as bv64) & mask) << shift)
  }

  /** A GTS1 byte overwrites its seven-bit field of the previous global timestamp (the fourth
      byte only five bits, and its bit 6 is the wrap flag); later bytes are ignored. */
  function Gts1Token(count: bv8, gts: bv64, wrap: bool, tok: bv8, i: ITMInternal): (o: Out)
    requires StateInv(InGts1(count, gts, wrap))
    ensures StateInv(o.state) && KeepsRegisters(o.i, i) && NoSyncFrame(o.frame)
    ensures o.state.InGts1? ==> SameHighBits(o.state.gts, gts)
    ensures match o.frame
      case Some(f) => f.Globaltimestamp? && SameHighBits(f.ts, gts) && o.i == i.(gtimestamp := f.ts)
      case None => o.i == i
  {
    var gts1 := Gts1Field(count, gts, tok);
    var wrap1 := if count == 3 then tok & 0x40 != 0 else wrap;
    var count1 := if count <= 3 then count + 1 else count;
    if tok & 0x80 == 0 then Out(Idle, Some(Globaltimestamp(wrap1, gts1)), i.(gtimestamp := gts1))
    else Out(InGts1(count1, gts1, wrap1), None, i)
  }

  /** The global timestamp after GTS1 byte number `count` (from 0). */
  function Gts1Field(count: bv8, gts: bv64, tok: bv8): (r: bv64)
    ensures SameHighBits(r, gts)
  {
    if count < 3 then
      SetFieldKeepsHighBits(gts, count, tok);
      SetField(gts, 0x7f, 7 * count, tok)
    else if count == 3 then
      SetLastFieldKeepsHighBits(gts, tok);
      SetField(gts, 0x1f, 21, tok)
    else gts
  }

  /** The seven-bit fields of the first three GTS1 bytes lie below bit 21. */
  lemma SetFieldKeepsHighBits(x: bv64, count: bv8, v: bv8)
    requires count < 3
    ensures SameHighBits(SetField(x, 0x7f, 7 * count, v), x)
  {
  }

  /** The five-bit field of the fourth GTS1 byte lies in bits 21 to 25. */
  lemma SetLastFieldKeepsHighBits(x: bv64, v: bv8)
    ensures SameHighBits(SetField(x, 0x1f, 21, v), x)
  {
  }

  /** An exception packet: the first byte is the low eight bits of the number, the second its
      ninth bit and the event. */
  function ExceptionToken(no: bv16, count: bv8, event: bv8, tok: bv8, i: ITMInternal): (o: Out)
    requires StateInv(InException(no, count, event))
    ensures StateInv(o.state) && !o.state.InGts1? && o.i == i && NoSyncFrame(o.frame)
  {
    if count == 0 then Out(InException(tok as bv16, 1, event), None, i)
    else Out(Idle, Some(Exception(no | (((tok as bv16) & 1) << 8), ExceptionEventOf(tok))), i)
  }

  /** The frame a completed data trace packet reports, by its kind. */
  function DataTraceFrame(index: bv8, addr: bv32, len: bv8, dtType: DataMatchType, wnr: bool): (f: ITMFrame)
    ensures NoSyncFrame(Some(f))
  {
    match dtType
    case DataValMatch => DataTraceValue(index, addr, len, wnr)
    case Match => DataTracePC(index, addr, len)
    case PCMatch => DataTracePC(index, addr, len)
    case DataAddrMatch => DataTraceAddr(index, addr, len)
  }

  /** A data trace byte: little-endian into `addr` until `len` bytes are in; a one-byte
      comparator match with bit 0 set reports the match alone. */
  function DataTraceToken(index: bv8, len: bv8, count: bv8, addr: bv32, dtType: DataMatchType, wnr: bool,
                          tok: bv8, i: ITMInternal): (o: Out)
    requires StateInv(InDataTrace(index, len, count, addr, dtType, wnr))
    ensures StateInv(o.state) && !o.state.InGts1? && o.i == i && NoSyncFrame(o.frame)
  {
    var addr1 := PutByte(addr, count, tok);
    var count1 := count + 1;
    if dtType == Match && len == 1 && tok & 1 == 1 then
      Out(Idle, Some(DataTraceMatch(index)), i)
    else if count1 == len then
      Out(Idle, Some(DataTraceFrame(index, addr1, len, dtType, wnr)), i)
    else
      Out(InDataTrace(index, len, count1, addr1, dtType, wnr), None, i)
  }

  /** A PC sample byte: a one-byte sample is a sleep indication, prohibited when it is 0xFF;
      otherwise the bytes assemble a little-endian address. */
  function PCSampleToken(len: bv8, count: bv8, addr: bv32, tok: bv8, i: ITMInternal): (o: Out)
    requires StateInv(InPCSample(len, count, addr))
    ensures StateInv(o.state) && !o.state.InGts1? && o.i == i && NoSyncFrame(o.frame)
  {
    if len == 1 then Out(Idle, Some(PCSleep(tok == 0xff)), i)
    else
      var addr1 := PutByte(addr, count, tok);
      if count + 1 == len then Out(Idle, Some(PCSample(addr1)), i)
      else Out(InPCSample(len, count + 1, addr1), None, i)
  }

  /** The event counter packet: bit k of the payload flags that counter k wrapped. */
  function EventFrame(tok: bv8): ITMFrame
  {
    EventC(tok & 1 != 0, tok & 2 != 0, tok & 4 != 0, tok & 8 != 0, tok & 16 != 0, tok & 32 != 0)
  }

  /** One byte in the given state. */
  function StateToken(st: PState, tok: bv8, i: ITMInternal): (o: Out)
    requires Inv(Decoder(st, i))
    ensures Inv(Decoder(o.state, o.i)) && SameShared(o.i, i) && NoSyncFrame(o.frame)
  {
    match st
    case Unsynced => Out(Unsynced, None, i)
    case Idle => IdleToken(tok, i)
    case _ => PacketToken(st, tok, i)
  }


  /** One payload byte of the packet being collected. */
  function PacketToken(st: PState, tok: bv8, i: ITMInternal): (o: Out)
    requires StateInv(st) && !st.Unsynced? && !st.Idle?
    ensures StateInv(o.state) && KeepsRegisters(o.i, i) && NoSyncFrame(o.frame)
  {
    match st
    case InInstrumentation(_, _, _, _) => ItmPacketToken(st, tok, i)
    case InXtn(_, _, _, _) => ItmPacketToken(st, tok, i)
    case InLts(_, _, _) => ItmPacketToken(st, tok, i)
    case InGts2(_, _) => ItmPacketToken(st, tok, i)
    case InGts1(_, _, _) => ItmPacketToken(st, tok, i)
    case InException(_, _, _) => DwtPacketToken(st, tok, i)
    case InDataTrace(_, _, _, _, _, _) => DwtPacketToken(st, tok, i)
    case InPCSample(_, _, _) => DwtPacketToken(st, tok, i)
    case InEvent => DwtPacketToken(st, tok, i)
    case InPMUOverflow => DwtPacketToken(st, tok, i)
  }

  /** A payload byte of a software source packet: instrumentation, extension or timestamp. */
  function ItmPacketToken(st: PState, tok: bv8, i: ITMInternal): (o: Out)
    requires StateInv(st)
    requires st.InInstrumentation? || st.InXtn? || st.InLts? || st.InGts2? || st.InGts1?
    ensures StateInv(o.state) && KeepsRegisters(o.i, i) && NoSyncFrame(o.frame)
  {
    match st
    case InInstrumentation(target, count, port, data) => InstrumentationToken(target, count, port, data, tok, i)
    case InXtn(ex, source, bitcount, count) => XtnToken(ex, source, bitcount, count, tok, i)
    case InLts(count, ttypen, ts) => LtsToken(count, ttypen, ts, tok, i)
    case InGts2(count, gts) => Gts2Token(count, gts, tok, i)
    case InGts1(count, gts, wrap) => Gts1Token(count, gts, wrap, tok, i)
  }

  /** A payload byte of a hardware source packet: exception, data trace, PC sample, event
      counter or PMU overflow. */
  function DwtPacketToken(st: PState, tok: bv8, i: ITMInternal): (o: Out)
    requires StateInv(st)
    requires st.InException? || st.InDataTrace? || st.InPCSample? || st.InEvent? || st.InPMUOverflow?
    ensures StateInv(o.state) && o.i == i && NoSyncFrame(o.frame)
  {
    match st
    case InException(no, count, event) => ExceptionToken(no, count, event, tok, i)
    case InDataTrace(index, len, count, addr, dtType, wnr) =>
      DataTraceToken(index, len, count, addr, dtType, wnr, tok, i)
    case InPCSample(len, count, addr) => PCSampleToken(len, count, addr, tok, i)
    case InEvent => Out(Idle, Some(EventFrame(tok)), i)
    case InPMUOverflow => Out(Idle, Some(PMUOverflow(tok)), i)
  }

  // ---------------------------------------------------------------------------------------------
  // The decoder.

  /** The whole decoder: its current state and the shared registers. */
  datatype Decoder = Decoder(state: PState, i: ITMInternal)

  /** The counters of the current state are in range, and the page register holds a multiple
      of 32, so a port number (below 32) added to it never wraps. */
  predicate Inv(d: Decoder)
  {
    StateInv(d.state) && d.i.pageRegister & 0x1f == 0
  }

  /** Bits 26 and up of a global timestamp, which a GTS1 packet never changes. */
  const GTS1_KEPT: bv64 := 0xFFFF_FFFF_FC00_0000

  predicate SameHighBits(a: bv64, b: bv64)
  {
    a & GTS1_KEPT == b & GTS1_KEPT
  }

  const NEW_DECODER := Decoder(Unsynced, DEFAULT_INTERNAL)

  /** The sync register after byte `tok`: the new byte in the low byte, the older ones moved up
      one byte, and the oldest one dropped. */
  function ShiftIn(lastBytes: bv64, tok: bv8): (r: bv64)
    ensures r & 0xFF == tok as bv64
    ensures r & 0xFFFF_FFFF_FFFF_FF00 == lastBytes << 8
  {
    (lastBytes << 8) | (tok as bv64)
  }

  /** The last four bytes received are FF FF FF 7F. */
  predicate IsTpiuSync(lastBytes: bv64)
    ensures IsTpiuSync(lastBytes) ==> lastBytes & 0xFF == 0x7F
  {
    lastBytes & TPIU_SYNCMASK == TPIU_SYNCPATTERN
  }

  /** The last six bytes received are 00 00 00 00 00 80. */
  predicate IsItmSync(lastBytes: bv64)
    ensures IsItmSync(lastBytes) ==> lastBytes & 0xFF == 0x80
  {
    lastBytes & ITM_SYNCMASK == ITM_SYNCPATTERN
  }

  /** The result of feeding one byte: the decoder after it and the frame it completed. */
  datatype Tick = Tick(dec: Decoder, frame: Option<ITMFrame>)

  /** `ITMDecoder::token`: shift the byte into the sync register and count it; a TPIU sync
      drops to Unsynced and an ITM sync to Idle (clearing the page register), each reported with
      its running count; otherwise the current state handles the byte. */
  function Step(d: Decoder, tok: bv8): (t: Tick)
    requires Inv(d)
    ensures Inv(t.dec)
    ensures t.dec.i.lastBytes == ShiftIn(d.i.lastBytes, tok)
    ensures t.dec.i.stats.inbytestotal == d.i.stats.inbytestotal + 1
    ensures t.dec.i.stats.inpackets == d.i.stats.inpackets + (if t.frame.Some? then 1 else 0)
    ensures t.dec.i.contextIdlen == d.i.contextIdlen
  {
    var lb := ShiftIn(d.i.lastBytes, tok);
    var i1 := d.i.(lastBytes := lb, stats := d.i.stats.(inbytestotal := d.i.stats.inbytestotal + 1));
    if IsTpiuSync(lb) then
      var s := i1.stats.(tpiusync := i1.stats.tpiusync + 1, inpackets := i1.stats.inpackets + 1);
      Tick(Decoder(Unsynced, WithStats(i1, s)), Some(TPIUSync(s.tpiusync)))
    else if IsItmSync(lb) then
      var s := i1.stats.(itmsync := i1.stats.itmsync + 1, inpackets := i1.stats.inpackets + 1);
      Tick(Decoder(Idle, i1.(pageRegister := 0, stats := s)), Some(ITMFrame.Sync(s.itmsync)))
    else
      Move(d, tok)
  }

  /** A byte that completes no synchronisation pattern: shifted in and counted, then handled by
      the current state; a completed frame is counted as a packet. */
  function Move(d: Decoder, tok: bv8): (t: Tick)
    requires Inv(d)
    ensures Inv(t.dec)
    ensures t.dec.i.lastBytes == ShiftIn(d.i.lastBytes, tok)
    ensures t.dec.i.stats.inbytestotal == d.i.stats.inbytestotal + 1
    ensures t.dec.i.stats.inpackets == d.i.stats.inpackets + (if t.frame.Some? then 1 else 0)
    ensures t.dec.i.contextIdlen == d.i.contextIdlen && NoSyncFrame(t.frame)
  {
    var i1 := d.i.(lastBytes := ShiftIn(d.i.lastBytes, tok), stats := d.i.stats.(inbytestotal := d.i.stats.inbytestotal + 1));
    var o := StateToken(d.state, tok, i1);
    var i2 := if o.frame.Some? then WithStats(o.i, o.i.stats.(inpackets := o.i.stats.inpackets + 1)) else o.i;
    Tick(Decoder(o.state, i2), o.frame)
  }

  /** The result of `get_frame`: the decoder after it, the frame or ShortData, and how many
      bytes of the input it consumed. */
  datatype Feed = Feed(dec: Decoder, result: Result<ITMFrame, ITMError>, used: nat)

  /** `ITMDecoder::get_frame`: feed bytes until one completes a frame or the input runs out. */
  function FeedFrame(d: Decoder, bytes: seq<bv8>): (f: Feed)
    requires Inv(d)
    ensures Inv(f.dec) && f.used <= |bytes|
    ensures f.result.Err? ==> f.result.error == ShortData && f.used == |bytes|
    ensures f.dec.i.stats.inbytestotal == d.i.stats.inbytestotal + f.used
    ensures f.dec.i.stats.inpackets == d.i.stats.inpackets + (if f.result.Ok? then 1 else 0)
    decreases |bytes|
  {
    if bytes == [] then Feed(d, Err(ShortData), 0)
    else
      var t := Step(d, bytes[0]);
      if t.frame.Some? then Feed(t.dec, Ok(t.frame.value), 1)
      else
        var f := FeedFrame(t.dec, bytes[1..]);
        f.(used := f.used + 1)
  }

  // ---------------------------------------------------------------------------------------------
  // The stateful decoder.

  class ITMDecoder {
    var state: PState
    var i: ITMInternal

    function Value(): Decoder
      reads this
    {
      Decoder(state, i)
    }

    predicate Valid()
      reads this
    {
      Inv(Value())
    }

    /** A new decoder is Unsynced, with zeroed registers and statistics. */
    constructor ()
      ensures Value() == NEW_DECODER && Valid()
    {
      state := Unsynced;
      i := DEFAULT_INTERNAL;
    }

    /** The statistics gathered so far. */
    method Stats() returns (s: ITMStats)
      ensures s == i.stats
    {
      s := i.stats;
    }

    /** Set the context id length; nothing else changes. */
    method SetContextIdlen(l: bv8)
      requires Valid()
      modifies this`i
      ensures i == old(i).(contextIdlen := l) && Valid()
    {
      i := i.(contextIdlen := l);
    }

    /** Process one byte, returning the frame it completes, if any. */
    method Token(tok: bv8) returns (r: Option<ITMFrame>)
      requires Valid()
      modifies this
      ensures Tick(Value(), r) == Step(old(Value()), tok) && Valid()
    {
      ghost var d0 := Value();
      var lb := ShiftIn(i.lastBytes, tok);
      var i1 := i.(lastBytes := lb, stats := i.stats.(inbytestotal := i.stats.inbytestotal + 1));

      if IsTpiuSync(lb) {
        var s := i1.stats.(tpiusync := i1.stats.tpiusync + 1, inpackets := i1.stats.inpackets + 1);
        i, state := WithStats(i1, s), Unsynced;
        assert Step(d0, tok) == Tick(Value(), Some(TPIUSync(s.tpiusync)));
        return Some(TPIUSync(s.tpiusync));
      }

      if IsItmSync(lb) {
        var s := i1.stats.(itmsync := i1.stats.itmsync + 1, inpackets := i1.stats.inpackets + 1);
        i, state := i1.(pageRegister := 0, stats := s), Idle;
        assert Step(d0, tok) == Tick(Value(), Some(ITMFrame.Sync(s.itmsync)));
        return Some(ITMFrame.Sync(s.itmsync));
      }

      r := Dispatch(tok, i1);
      assert Step(d0, tok) == Move(d0, tok);
    }

    /** The current state handles a byte already shifted in and counted (`i1`); a completed
        frame is counted as a packet. */
    method Dispatch(tok: bv8, i1: ITMInternal) returns (r: Option<ITMFrame>)
      requires Valid()
      requires i1 == i.(lastBytes := ShiftIn(i.lastBytes, tok), stats := i.stats.(inbytestotal := i.stats.inbytestotal + 1))
      modifies this
      ensures Tick(Value(), r) == Move(old(Value()), tok) && Valid()
    {
      var o := StateToken(state, tok, i1);
      var i2 := o.i;
      if o.frame.Some? {
        i2 := WithStats(o.i, o.i.stats.(inpackets := o.i.stats.inpackets + 1));
      }
      i, state := i2, o.state;
      r := o.frame;
    }

    /** Feed bytes until a frame completes or they run out; `used` counts the bytes consumed,
        so a caller resumes with bytes[used..]. */
    method GetFrame(bytes: seq<bv8>) returns (r: Result<ITMFrame, ITMError>, used: nat)
      requires Valid()
      modifies this
      ensures Valid() && Feed(Value(), r, used) == FeedFrame(old(Value()), bytes)
    {
      used := 0;
      while true
        invariant Valid() && used <= |bytes|
        invariant var f := FeedFrame(Value(), bytes[used..]);
          FeedFrame(old(Value()), bytes) == f.(used := f.used + used)
        decreases |bytes| - used
      {
        if used == |bytes| {
          return Err(ShortData), used;
        }
        ghost var before := Value();
        var t := Token(bytes[used]);
        assert bytes[used..][1..] == bytes[used + 1..];
        used := used + 1;
        if t.Some? {
          return Ok(t.value), used;
        }
      }
    }
  }
}
