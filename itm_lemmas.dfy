/**
 * Properties of the ITM/DWT decoder: synchronisation from any state, the Unsynced state, the
 * counters, resumption of a partial packet, and the packet formats, each against a reference
 * description of the bits, plus the decoder's own test vectors.
 */
module ItmLemmas {
  import opened Results
  import opened Itm

  // ---------------------------------------------------------------------------------------------
  // Runs of bytes.

  /** The sync register after a run of bytes. */
  function ShiftAll(lastBytes: bv64, bytes: seq<bv8>): bv64
    decreases |bytes|
  {
    if bytes == [] then lastBytes else ShiftAll(ShiftIn(lastBytes, bytes[0]), bytes[1..])
  }

  /** No byte of the run completes either synchronisation pattern. */
  predicate SyncFree(lastBytes: bv64, bytes: seq<bv8>)
    decreases |bytes|
  {
    || bytes == []
    || (var lb := ShiftIn(lastBytes, bytes[0]);
        !IsTpiuSync(lb) && !IsItmSync(lb) && SyncFree(lb, bytes[1..]))
  }

  /** The decoder after a run of bytes, whatever frames they complete. */
  function Run(d: Decoder, bytes: seq<bv8>): (r: Decoder)
    requires Inv(d)
    ensures Inv(r) && r.i.lastBytes == ShiftAll(d.i.lastBytes, bytes)
    ensures r.i.stats.inbytestotal == d.i.stats.inbytestotal + |bytes|
    ensures SyncFree(d.i.lastBytes, bytes) ==> r.i.stats.itmsync == d.i.stats.itmsync
    decreases |bytes|
  {
    if bytes == [] then d
    else
      SyncCounters(d, bytes[0]);
      Run(Step(d, bytes[0]).dec, bytes[1..])
  }

  // ---------------------------------------------------------------------------------------------
  // Synchronisation.

  /** The patterns byte by byte: TPIU sync is FF FF FF 7F in the last four bytes received, ITM
      sync 00 00 00 00 00 80 in the last six. */
  lemma SyncPatternBytes(lb: bv64)
    ensures IsTpiuSync(lb) <==> lb & 0xFF == 0x7F && (lb >> 8) & 0xFF_FFFF == 0xFF_FFFF
    ensures IsItmSync(lb) <==> lb & 0xFF == 0x80 && (lb >> 8) & 0xFF_FFFF_FFFF == 0
  {
  }

  /** The two patterns exclude each other: the last byte of one is 0x7F, of the other 0x80. */
  lemma PatternsExclusive(lb: bv64)
    ensures !(IsTpiuSync(lb) && IsItmSync(lb))
  {
  }

  /** A TPIU sync pattern always yields TPIUSync with the incremented count and drops to
      Unsynced; an ITM sync pattern always yields Sync with the incremented count, clears the page
      register and goes to Idle; whatever the state, and no state yields either frame. */
  lemma SyncIff(d: Decoder, tok: bv8)
    requires Inv(d)
    ensures var lb := ShiftIn(d.i.lastBytes, tok); var t := Step(d, tok);
      && (IsTpiuSync(lb) <==> t.frame == Some(TPIUSync(d.i.stats.tpiusync + 1)))
      && (IsTpiuSync(lb) ==> t.dec.state == Unsynced && t.dec.i.pageRegister == d.i.pageRegister)
      && (IsItmSync(lb) <==> t.frame == Some(ITMFrame.Sync(d.i.stats.itmsync + 1)))
      && (IsItmSync(lb) ==> t.dec.state == Idle && t.dec.i.pageRegister == 0)
      && (!IsTpiuSync(lb) && !IsItmSync(lb) ==> NoSyncFrame(t.frame))
  {
    PatternsExclusive(ShiftIn(d.i.lastBytes, tok));
  }

  /** The sync counters move only on their own pattern. */
  lemma SyncCounters(d: Decoder, tok: bv8)
    requires Inv(d)
    ensures var lb := ShiftIn(d.i.lastBytes, tok); var t := Step(d, tok);
      && t.dec.i.stats.itmsync == d.i.stats.itmsync + (if IsItmSync(lb) then 1 else 0)
      && t.dec.i.stats.tpiusync == d.i.stats.tpiusync + (if IsTpiuSync(lb) then 1 else 0)
  {
    PatternsExclusive(ShiftIn(d.i.lastBytes, tok));
  }

  /** Five zero bytes then 0x80 synchronise the decoder from any state, even in the middle of a
      packet: the zeros never complete a pattern, and the last byte completes the ITM one. */
  lemma {:induction false} SyncFromAnyState(d: Decoder)
    requires Inv(d)
    ensures var t := Step(Run(d, [0, 0, 0, 0, 0]), 0x80);
      && t.frame == Some(ITMFrame.Sync(d.i.stats.itmsync + 1))
      && t.dec.state == Idle && t.dec.i.pageRegister == 0
  {
    var zeros: seq<bv8> := [0, 0, 0, 0, 0];
    ZerosShiftOut(d.i.lastBytes);
    var r := Run(d, zeros);
    SyncIff(r, 0x80);
  }

  /** Zero bytes never complete a pattern (neither ends in a zero byte); five of them leave
      only zeros in the low 40 bits of the register. */
  lemma ZerosShiftOut(lb: bv64)
    ensures SyncFree(lb, [0, 0, 0, 0, 0]) && ShiftAll(lb, [0, 0, 0, 0, 0]) == lb << 40
  {
    var zeros: seq<bv8> := [0, 0, 0, 0, 0];
    var s1 := ShiftIn(lb, 0);
    var s2 := ShiftIn(s1, 0);
    var s3 := ShiftIn(s2, 0);
    var s4 := ShiftIn(s3, 0);
    var s5 := ShiftIn(s4, 0);
    assert zeros[1..] == [0, 0, 0, 0] && zeros[2..] == [0, 0, 0] && zeros[3..] == [0, 0];
    assert zeros[4..] == [0] && zeros[5..] == [];
    assert ShiftAll(s5, []) == s5 && SyncFree(s5, []);
    assert s5 == lb << 40;
  }

  // ---------------------------------------------------------------------------------------------
  // The Unsynced state.

  /** Unsynced waits for a pattern: any other byte is only counted. */
  lemma UnsyncedStep(d: Decoder, tok: bv8)
    requires Inv(d) && d.state == Unsynced
    ensures var lb := ShiftIn(d.i.lastBytes, tok); var t := Step(d, tok);
      !IsTpiuSync(lb) && !IsItmSync(lb) ==>
        t == Tick(Decoder(Unsynced, d.i.(lastBytes := lb,
                   stats := d.i.stats.(inbytestotal := d.i.stats.inbytestotal + 1))), None)
  {
  }

  /** So a stream without a synchronisation pattern leaves the decoder Unsynced, counting its
      bytes, and `get_frame` reports ShortData having consumed all of it. */
  lemma {:induction false} UnsyncedSilent(d: Decoder, bytes: seq<bv8>)
    requires Inv(d) && d.state == Unsynced && SyncFree(d.i.lastBytes, bytes)
    ensures FeedFrame(d, bytes) ==
      Feed(Decoder(Unsynced, d.i.(lastBytes := ShiftAll(d.i.lastBytes, bytes),
                                  stats := d.i.stats.(inbytestotal := d.i.stats.inbytestotal + |bytes|))),
           Err(ShortData), |bytes|)
    decreases |bytes|
  {
    if bytes != [] {
      UnsyncedStep(d, bytes[0]);
      UnsyncedSilent(Step(d, bytes[0]).dec, bytes[1..]);
    }
  }

  // ---------------------------------------------------------------------------------------------
  // Partial packets.

  /** `get_frame` that ran out of input keeps the partial packet in the decoder: feeding the
      rest later completes exactly what feeding everything at once would have. */
  lemma {:induction false} FeedFrameResume(d: Decoder, a: seq<bv8>, b: seq<bv8>)
    requires Inv(d) && FeedFrame(d, a).result.Err?
    ensures var f := FeedFrame(FeedFrame(d, a).dec, b);
      FeedFrame(d, a + b) == f.(used := f.used + |a|)
    decreases |a|
  {
    if a == [] {
      assert a + b == b;
    } else {
      assert (a + b)[0] == a[0] && (a + b)[1..] == a[1..] + b;
      FeedFrameResume(Step(d, a[0]).dec, a[1..], b);
    }
  }

  /** `get_frame` stops at the first frame: bytes after it are not looked at. */
  lemma {:induction false} FeedFrameStops(d: Decoder, a: seq<bv8>, b: seq<bv8>)
    requires Inv(d) && FeedFrame(d, a).result.Ok?
    ensures FeedFrame(d, a + b) == FeedFrame(d, a)
    decreases |a|
  {
    assert a != [];
    assert (a + b)[0] == a[0] && (a + b)[1..] == a[1..] + b;
    if Step(d, a[0]).frame.None? {
      FeedFrameStops(Step(d, a[0]).dec, a[1..], b);
    }
  }

  // ---------------------------------------------------------------------------------------------
  // Bytes that complete no synchronisation pattern.

  /** `get_frame` over bytes that complete no synchronisation pattern: each goes to the state. */
  function Tokens(d: Decoder, bytes: seq<bv8>): (f: Feed)
    requires Inv(d)
    ensures Inv(f.dec) && f.used <= |bytes|
    ensures f.result.Err? ==> f.result.error == ShortData && f.used == |bytes|
    decreases |bytes|
  {
    if bytes == [] then Feed(d, Err(ShortData), 0)
    else
      var t := Move(d, bytes[0]);
      if t.frame.Some? then Feed(t.dec, Ok(t.frame.value), 1)
      else
        var f := Tokens(t.dec, bytes[1..]);
        f.(used := f.used + 1)
  }

  /** Without a synchronisation pattern `get_frame` is the states' work alone. */
  lemma {:induction false} PlainFeed(d: Decoder, bytes: seq<bv8>)
    requires Inv(d) && SyncFree(d.i.lastBytes, bytes)
    ensures FeedFrame(d, bytes) == Tokens(d, bytes)
    decreases |bytes|
  {
    if bytes != [] {
      PlainFeed(Step(d, bytes[0]).dec, bytes[1..]);
    }
  }

  /** A run that ends without a frame leaves its partial packet in the decoder. */
  lemma {:induction false} TokensResume(d: Decoder, a: seq<bv8>, b: seq<bv8>)
    requires Inv(d) && Tokens(d, a).result.Err?
    ensures var f := Tokens(Tokens(d, a).dec, b);
      Tokens(d, a + b) == f.(used := f.used + |a|)
    decreases |a|
  {
    if a == [] {
      assert a + b == b;
    } else {
      assert (a + b)[0] == a[0] && (a + b)[1..] == a[1..] + b;
      TokensResume(Move(d, a[0]).dec, a[1..], b);
    }
  }

  /** Each pattern ends in its own byte, 0x7F or 0x80: no other byte completes one. */
  lemma NoPattern(lb: bv64, tok: bv8)
    requires tok != 0x7F && tok != 0x80
    ensures !IsTpiuSync(ShiftIn(lb, tok)) && !IsItmSync(ShiftIn(lb, tok))
  {
  }

  /** So a run without those two bytes completes no pattern, whatever came before it. */
  lemma {:induction false} PlainBytes(lb: bv64, p: seq<bv8>)
    requires forall k :: 0 <= k < |p| ==> p[k] != 0x7F && p[k] != 0x80
    ensures SyncFree(lb, p)
    decreases |p|
  {
    if p != [] {
      NoPattern(lb, p[0]);
      PlainBytes(ShiftIn(lb, p[0]), p[1..]);
    }
  }

  // ---------------------------------------------------------------------------------------------
  // Single-byte packets from Idle.

  /** A single byte that completes no pattern: `get_frame` reports what the state makes of it. */
  lemma OneByte(d: Decoder, tok: bv8)
    requires Inv(d) && SyncFree(d.i.lastBytes, [tok])
    ensures var t := Move(d, tok);
      FeedFrame(d, [tok]) == if t.frame.Some? then Feed(t.dec, Ok(t.frame.value), 1) else Feed(t.dec, Err(ShortData), 1)
  {
    assert [tok][1..] == [];
  }

  /** 0x70 reports an overflow with the incremented overflow count and stays Idle. */
  lemma OverflowPacket(d: Decoder)
    requires Inv(d) && d.state == Idle
    ensures var f := FeedFrame(d, [0x70]);
      && f.result == Ok(Overflow(d.i.stats.overflow + 1)) && f.dec.state == Idle && f.used == 1
      && f.dec.i.stats.overflow == d.i.stats.overflow + 1
  {
    NoPattern(d.i.lastBytes, 0x70);
    OneByte(d, 0x70);
    OverflowMove(d);
  }

  lemma OverflowMove(d: Decoder)
    requires Inv(d) && d.state == Idle
    ensures var t := Move(d, 0x70);
      t.frame == Some(Overflow(d.i.stats.overflow + 1)) && t.dec.state == Idle
      && t.dec.i.stats.overflow == d.i.stats.overflow + 1
  {
    ClassifyExact(0x70);
  }

  /** 0x00 is ignored: no frame, still Idle, no counter but the byte count moves. */
  lemma IgnoredByte(d: Decoder)
    requires Inv(d) && d.state == Idle
    ensures var f := FeedFrame(d, [0x00]);
      && f.result == Err(ShortData) && f.dec.state == Idle
      && f.dec.i == d.i.(lastBytes := ShiftIn(d.i.lastBytes, 0),
                         stats := d.i.stats.(inbytestotal := d.i.stats.inbytestotal + 1))
  {
    NoPattern(d.i.lastBytes, 0);
    OneByte(d, 0);
    ClassifyExact(0x00);
  }

  /** A header no arm accepts only counts as noise (unless it completes the ITM pattern). */
  lemma NoiseByte(d: Decoder, tok: bv8)
    requires Inv(d) && d.state == Idle && Classify(tok) == Noise && SyncFree(d.i.lastBytes, [tok])
    ensures var f := FeedFrame(d, [tok]);
      && f.result == Err(ShortData) && f.dec.state == Idle
      && f.dec.i == d.i.(lastBytes := ShiftIn(d.i.lastBytes, tok),
                         stats := d.i.stats.(inbytestotal := d.i.stats.inbytestotal + 1,
                                             noise := d.i.stats.noise + 1))
  {
    OneByte(d, tok);
  }

  /** A local timestamp header with bit 7 clear is the whole timestamp: bits 6:4. */
  lemma ShortTimestamp(d: Decoder, tok: bv8)
    requires Inv(d) && d.state == Idle
    requires tok & 0x8F == 0 && tok != 0x00 && tok != 0x70
    ensures var f := FeedFrame(d, [tok]);
      && f.result == Ok(Timestamp(TSType.Sync, ((tok >> 4) & 7) as bv64)) && f.dec.state == Idle
      && f.dec.i.stats.ts == d.i.stats.ts + 1
  {
    NoPattern(d.i.lastBytes, tok);
    OneByte(d, tok);
    ClassifyExact(tok);
  }

  /** A byte no arm accepts leaves the decoder Idle on the same page, reporting nothing. */
  lemma NoiseMove(d: Decoder, tok: bv8)
    requires Inv(d) && d.state == Idle && Classify(tok) == Noise
    ensures var t := Move(d, tok);
      t.frame.None? && t.dec.state == Idle && t.dec.i.pageRegister == d.i.pageRegister
  {
  }

  /** So a noise byte only delays the packet after it. */
  lemma NoiseThen(d: Decoder, tok: bv8, rest: seq<bv8>)
    requires Inv(d) && d.state == Idle && Classify(tok) == Noise
    ensures var d1 := Move(d, tok).dec; var f := Tokens(d1, rest);
      && d1.state == Idle && d1.i.pageRegister == d.i.pageRegister
      && Tokens(d, [tok] + rest) == f.(used := f.used + 1)
  {
    NoiseMove(d, tok);
    HeaderThen(d, tok, rest);
  }

  /** A page extension header selects page (bits 6:4) of 32 stimulus ports, and reports nothing. */
  lemma PageSelect(d: Decoder, tok: bv8)
    requires Inv(d) && d.state == Idle
    requires tok & 0x8F == 0x0C
    ensures var f := FeedFrame(d, [tok]);
      && f.result == Err(ShortData) && f.dec.state == Idle
      && f.dec.i.pageRegister == 32 * ((tok >> 4) & 7)
  {
    NoPattern(d.i.lastBytes, tok);
    OneByte(d, tok);
    PageMove(d, tok);
  }

  /** A one-byte extension header with bit 2 clear (`0???_1000`) is the whole extension: an
      Xtn frame of length 0 carrying bits 6:4, and the decoder stays Idle on the same page. */
  lemma ShortXtn(d: Decoder, tok: bv8)
    requires Inv(d) && d.state == Idle
    requires tok & 0x8F == 0x08
    ensures var f := FeedFrame(d, [tok]);
      && f.result == Ok(Xtn(false, 0, ((tok >> 4) as bv32) & 7)) && f.dec.state == Idle
      && f.dec.i.pageRegister == d.i.pageRegister
  {
    NoPattern(d.i.lastBytes, tok);
    OneByte(d, tok);
    ShortXtnMove(d, tok);
  }

  lemma ShortXtnMove(d: Decoder, tok: bv8)
    requires Inv(d) && d.state == Idle && tok & 0x8F == 0x08
    ensures var t := Move(d, tok);
      t.frame == Some(Xtn(false, 0, ((tok >> 4) as bv32) & 7)) && t.dec.state == Idle
      && t.dec.i.pageRegister == d.i.pageRegister
  {
    ClassifyExact(tok);
  }

  lemma PageMove(d: Decoder, tok: bv8)
    requires Inv(d) && d.state == Idle && tok & 0x8F == 0x0C
    ensures var t := Move(d, tok);
      t.frame.None? && t.dec.state == Idle && t.dec.i.pageRegister == PageOf(tok)
  {
    ClassifyExact(tok);
  }

  // ---------------------------------------------------------------------------------------------
  // Multi-byte packets.

  /** Continuation bytes with bit 7 set, closed by one with bit 7 clear. */
  predicate Continued(p: seq<bv8>)
  {
    && |p| >= 1 && p[|p| - 1] & 0x80 == 0
    && forall k :: 0 <= k < |p| - 1 ==> p[k] & 0x80 != 0
  }

  /** Seven-bit groups, least significant first, the first of them at group position k; groups
      at position `limit` and beyond are dropped. */
  function Groups(p: seq<bv8>, k: bv8, limit: bv8): bv64
    requires limit <= 7
    decreases |p|
  {
    if p == [] || k >= limit then 0
    else (((p[0] & 0x7f) as bv64) << (7 * k)) | Groups(p[1..], k + 1, limit)
  }

  /** What a timestamp packet state makes of the bytes p, group by group, starting at group
      position k with `acc` already collected. */
  function Accumulate(acc: bv64, p: seq<bv8>, k: bv8, limit: bv8): bv64
    requires limit <= 7
    decreases |p|
  {
    if p == [] then acc
    else if k < limit then Accumulate(Group7(acc, k, p[0]), p[1..], k + 1, limit)
    else Accumulate(acc, p[1..], k, limit)
  }

  /** The last local timestamp byte (bit 7 clear) adds its group while fewer than four are in,
      and ends the packet. */
  lemma LtsLast(d: Decoder, tok: bv8)
    requires Inv(d) && d.state.InLts? && tok & 0x80 == 0
    ensures var t := Move(d, tok); var st := d.state;
      var ts1 := if st.count < 4 then Group7(st.ts, st.count, tok) else st.ts;
      t.frame == Some(Timestamp(TimestampType(st.ttypen), ts1)) && t.dec.state == Idle
  {
  }

  /** An earlier local timestamp byte (bit 7 set) adds its group while fewer than four are in. */
  lemma LtsMore(d: Decoder, tok: bv8)
    requires Inv(d) && d.state.InLts? && tok & 0x80 != 0
    ensures var t := Move(d, tok); var st := d.state;
      var ts1 := if st.count < 4 then Group7(st.ts, st.count, tok) else st.ts;
      t.frame.None? && t.dec.state == InLts(if st.count < 4 then st.count + 1 else st.count, st.ttypen, ts1)
  {
  }

  /** The payload of a local timestamp, from any point in it, up to the byte with bit 7 clear:
      the timestamp collects the groups of all of it, and the packet ends Idle. */
  lemma {:induction false} LtsRun(d: Decoder, p: seq<bv8>)
    requires Inv(d) && d.state.InLts? && Continued(p)
    ensures var f := Tokens(d, p);
      && f.result == Ok(Timestamp(TimestampType(d.state.ttypen), Accumulate(d.state.ts, p, d.state.count, 4)))
      && f.used == |p| && f.dec.state == Idle
    decreases |p|
  {
    if |p| == 1 {
      LtsLast(d, p[0]);
    } else {
      assert p[0] & 0x80 != 0;
      assert Continued(p[1..]);
      LtsMore(d, p[0]);
      LtsRun(Move(d, p[0]).dec, p[1..]);
    }
  }

  /** The collected value is the accumulator with the groups ORed in at their positions. */
  lemma {:induction false} AccumulateGroups(acc: bv64, p: seq<bv8>, k: bv8, limit: bv8)
    requires limit <= 7
    ensures Accumulate(acc, p, k, limit) == acc | Groups(p, k, limit)
    decreases |p|
  {
    if p == [] {
      OrZero(acc);
    } else {
      GroupsStep(acc, p, k, limit);
      AccumulateGroups(if k < limit then Group7(acc, k, p[0]) else acc, p[1..], if k < limit then k + 1 else k, limit);
    }
  }

  /** Four groups fit in 28 bits and seven in 49. */
  lemma {:induction false} AccumulateBound(acc: bv64, p: seq<bv8>, k: bv8, limit: bv8)
    requires limit <= 7 && k <= limit
    ensures limit <= 4 && acc < 0x1000_0000 ==> Accumulate(acc, p, k, limit) < 0x1000_0000
    ensures acc < 0x2_0000_0000_0000 ==> Accumulate(acc, p, k, limit) < 0x2_0000_0000_0000
    decreases |p|
  {
    if p != [] {
      AccumulateBound(if k < limit then Group7(acc, k, p[0]) else acc, p[1..], if k < limit then k + 1 else k, limit);
    }
  }

  /** Collected from zero, a payload is its groups: four of them below 2^28, seven below 2^49. */
  lemma PayloadGroups(p: seq<bv8>, limit: bv8)
    requires limit == 4 || limit == 7
    ensures Accumulate(0, p, 0, limit) == Groups(p, 0, limit)
    ensures limit == 4 ==> Groups(p, 0, limit) < 0x1000_0000
    ensures Groups(p, 0, limit) < 0x2_0000_0000_0000
  {
    AccumulateGroups(0, p, 0, limit);
    AccumulateBound(0, p, 0, limit);
    OrZeroLeft(Groups(p, 0, limit));
  }

  /** A multi-byte local timestamp (header 11??_0000) starts from zero with the type in header
      bits 5:4; its value is the first four seven-bit groups of the payload, so it stays below
      2^28, and the packet takes exactly the header and its payload. */
  lemma LtsTokens(d: Decoder, h: bv8, p: seq<bv8>)
    requires Inv(d) && d.state == Idle && h & 0xCF == 0xC0 && Continued(p)
    ensures var f := Tokens(d, [h] + p);
      && f.result == Ok(Timestamp(TimestampType((h >> 4) & 3), Groups(p, 0, 4)))
      && f.used == 1 + |p| && f.dec.state == Idle && Groups(p, 0, 4) < 0x1000_0000
  {
    ClassifyExact(h);
    var t := Move(d, h);
    assert t.frame.None? && t.dec.state == InLts(0, (h >> 4) & 3, 0);
    assert ([h] + p)[0] == h && ([h] + p)[1..] == p;
    LtsRun(t.dec, p);
    PayloadGroups(p, 4);
  }

  /** The last GTS2 byte (bit 7 clear) adds its group while fewer than seven are in, ends the
      packet, and its value becomes the global timestamp. */
  lemma Gts2Last(d: Decoder, tok: bv8)
    requires Inv(d) && d.state.InGts2? && tok & 0x80 == 0
    ensures var t := Move(d, tok); var st := d.state;
      var gts1 := if st.count < 7 then Group7(st.gts, st.count, tok) else st.gts;
      t.frame == Some(Globaltimestamp(false, gts1)) && t.dec.state == Idle && t.dec.i.gtimestamp == gts1
  {
  }

  /** An earlier GTS2 byte (bit 7 set) adds its group while fewer than seven are in. */
  lemma Gts2More(d: Decoder, tok: bv8)
    requires Inv(d) && d.state.InGts2? && tok & 0x80 != 0
    ensures var t := Move(d, tok); var st := d.state;
      var gts1 := if st.count < 7 then Group7(st.gts, st.count, tok) else st.gts;
      t.frame.None? && t.dec.state == InGts2(if st.count < 7 then st.count + 1 else st.count, gts1)
  {
  }

  /** The payload of a GTS2 packet, from any point in it, up to the byte with bit 7 clear. */
  lemma {:induction false} Gts2Run(d: Decoder, p: seq<bv8>)
    requires Inv(d) && d.state.InGts2? && Continued(p)
    ensures var f := Tokens(d, p); var v := Accumulate(d.state.gts, p, d.state.count, 7);
      && f.result == Ok(Globaltimestamp(false, v)) && f.dec.i.gtimestamp == v
      && f.used == |p| && f.dec.state == Idle
    decreases |p|
  {
    if |p| == 1 {
      Gts2Last(d, p[0]);
    } else {
      assert p[0] & 0x80 != 0;
      assert Continued(p[1..]);
      Gts2More(d, p[0]);
      Gts2Run(Move(d, p[0]).dec, p[1..]);
    }
  }

  /** A GTS2 packet (header 0xB4) starts from zero; its value, the first seven seven-bit groups
      of the payload and so below 2^49, is reported and stored as the global timestamp. */
  lemma Gts2Tokens(d: Decoder, p: seq<bv8>)
    requires Inv(d) && d.state == Idle && Continued(p)
    ensures var f := Tokens(d, [0xB4] + p);
      && f.result == Ok(Globaltimestamp(false, Groups(p, 0, 7))) && f.dec.i.gtimestamp == Groups(p, 0, 7)
      && f.used == 1 + |p| && f.dec.state == Idle && Groups(p, 0, 7) < 0x2_0000_0000_0000
  {
    ClassifyExact(0xB4);
    var t := Move(d, 0xB4);
    assert t.frame.None? && t.dec.state == InGts2(0, 0);
    assert ([0xB4] + p)[0] == 0xB4 && ([0xB4] + p)[1..] == p;
    Gts2Run(t.dec, p);
    PayloadGroups(p, 7);
  }

  /** Through the decoder: a local timestamp packet whose bytes complete no synchronisation
      pattern is reported once its last byte is in. */
  lemma LtsPacket(d: Decoder, h: bv8, p: seq<bv8>)
    requires Inv(d) && d.state == Idle && h & 0xCF == 0xC0 && Continued(p)
    requires SyncFree(d.i.lastBytes, [h] + p)
    ensures var f := FeedFrame(d, [h] + p);
      && f.result == Ok(Timestamp(TimestampType((h >> 4) & 3), Groups(p, 0, 4)))
      && f.used == 1 + |p| && f.dec.state == Idle && Groups(p, 0, 4) < 0x1000_0000
  {
    PlainFeed(d, [h] + p);
    LtsTokens(d, h, p);
  }

  /** Through the decoder: a GTS2 packet whose bytes complete no synchronisation pattern. */
  lemma Gts2Packet(d: Decoder, p: seq<bv8>)
    requires Inv(d) && d.state == Idle && Continued(p) && SyncFree(d.i.lastBytes, [0xB4] + p)
    ensures var f := FeedFrame(d, [0xB4] + p);
      && f.result == Ok(Globaltimestamp(false, Groups(p, 0, 7))) && f.dec.i.gtimestamp == Groups(p, 0, 7)
      && f.used == 1 + |p| && f.dec.state == Idle
  {
    PlainFeed(d, [0xB4] + p);
    Gts2Tokens(d, p);
  }

  /** Taking in one more byte moves its group from the pending groups into the accumulator. */
  lemma GroupsStep(acc: bv64, p: seq<bv8>, k: bv8, limit: bv8)
    requires p != [] && limit <= 7
    ensures acc | Groups(p, k, limit) ==
      (if k < limit then Group7(acc, k, p[0]) else acc) | Groups(p[1..], if k < limit then k + 1 else k, limit)
  {
    if k < limit {
      GroupsTake(acc, p, k, limit);
    } else {
      assert Groups(p, k, limit) == 0 == Groups(p[1..], k, limit);
    }
  }

  lemma GroupsTake(acc: bv64, p: seq<bv8>, k: bv8, limit: bv8)
    requires p != [] && k < limit <= 7
    ensures acc | Groups(p, k, limit) == Group7(acc, k, p[0]) | Groups(p[1..], k + 1, limit)
  {
    TakeGroup(acc, p[0], k, Groups(p[1..], k + 1, limit));
  }

  lemma TakeGroup(acc: bv64, b: bv8, k: bv8, rest: bv64)
    requires k < 7
    ensures acc | ((((b & 0x7f) as bv64) << (7 * k)) | rest) == Group7(acc, k, b) | rest
  {
  }

  lemma OrZero(a: bv64)
    ensures a | 0 == a
  {
  }

  lemma OrZeroLeft(a: bv64)
    ensures 0 | a == a
  {
  }

  // ---------------------------------------------------------------------------------------------
  // Software source (instrumentation) packets.

  /** Payload bytes ORed into `acc` little-endian, the first of them as byte number k. */
  function Pack(acc: bv32, p: seq<bv8>, k: bv8): bv32
    requires k as int + |p| <= 4
    decreases |p|
  {
    if p == [] then acc else Pack(PutByte(acc, k, p[0]), p[1..], k + 1)
  }

  /** Byte number k of a 32-bit word, least significant first. */
  function ByteOf(x: bv32, k: bv8): bv8
    requires k < 4
  {
    ((x >> (8 * k)) & 0xFF) as bv8
  }

  /** `n` bytes take a little-endian counter from `count` to `target` (at most four). */
  predicate Left(count: bv8, target: bv8, n: nat)
  {
    if n == 1 then count + 1 == target
    else if n == 2 then count + 2 == target
    else if n == 3 then count + 3 == target
    else n == 4 && count == 0 && target == 4
  }

  /** After one byte, one byte fewer is left. */
  lemma LeftStep(count: bv8, target: bv8, n: nat)
    requires Left(count, target, n) && n > 1 && count < target <= 4
    ensures count + 1 != target && Left(count + 1, target, n - 1)
  {
  }

  /** The last instrumentation payload byte goes in as the top byte of the data word and ends the
      packet, reporting the port offset by the page register. */
  lemma InstrumentationLast(d: Decoder, tok: bv8)
    requires Inv(d) && d.state.InInstrumentation? && d.state.count + 1 == d.state.target
    ensures var t := Move(d, tok); var st := d.state;
      t.frame == Some(Instrumentation(st.port + d.i.pageRegister, PutByte(st.data, st.count, tok), st.target))
      && t.dec.state == Idle
  {
  }

  /** An earlier payload byte goes in as the next byte of the data word. */
  lemma InstrumentationMore(d: Decoder, tok: bv8)
    requires Inv(d) && d.state.InInstrumentation? && d.state.count + 1 != d.state.target
    ensures var t := Move(d, tok); var st := d.state;
      && t.frame.None? && t.dec.state == InInstrumentation(st.target, st.count + 1, st.port, PutByte(st.data, st.count, tok))
      && t.dec.i.pageRegister == d.i.pageRegister
  {
  }

  /** The rest of an instrumentation payload, exactly as many bytes as are still announced. */
  lemma {:induction false} InstrumentationRun(d: Decoder, p: seq<bv8>)
    requires Inv(d) && d.state.InInstrumentation? && Left(d.state.count, d.state.target, |p|)
    ensures var f := Tokens(d, p); var st := d.state;
      && f.result == Ok(Instrumentation(st.port + d.i.pageRegister, Pack(st.data, p, st.count), st.target))
      && f.used == |p| && f.dec.state == Idle
    decreases |p|
  {
    if |p| == 1 {
      InstrumentationLast(d, p[0]);
    } else {
      LeftStep(d.state.count, d.state.target, |p|);
      InstrumentationMore(d, p[0]);
      InstrumentationRun(Move(d, p[0]).dec, p[1..]);
    }
  }

  /** Packed from zero, a payload of 1, 2 or 4 bytes is the little-endian word of those bytes:
      byte k of the word is payload byte k, and the bytes above the payload are zero. */
  lemma PackBytes(p: seq<bv8>)
    requires |p| == 1 || |p| == 2 || |p| == 4
    ensures var x := Pack(0, p, 0);
      && ByteOf(x, 0) == p[0]
      && ByteOf(x, 1) == (if |p| >= 2 then p[1] else 0)
      && ByteOf(x, 2) == (if |p| == 4 then p[2] else 0)
      && ByteOf(x, 3) == (if |p| == 4 then p[3] else 0)
  {
    if |p| == 1 {
      assert p == [p[0]];
      PackOne(p[0]);
    } else if |p| == 2 {
      assert p == [p[0], p[1]];
      PackTwo(p[0], p[1]);
    } else {
      assert p == [p[0], p[1], p[2], p[3]];
      PackFour(p[0], p[1], p[2], p[3]);
    }
  }

  lemma PackOne(a: bv8)
    ensures var x := Pack(0, [a], 0); ByteOf(x, 0) == a && ByteOf(x, 1) == 0 && ByteOf(x, 2) == 0 && ByteOf(x, 3) == 0
  {
    var x0 := PutByte(0, 0, a);
    assert Pack(0, [a], 0) == x0;
    PutZero(x0, 1);
    PutZero(x0, 2);
    PutZero(x0, 3);
    BytesOfWord(a, 0, 0, 0);
  }

  lemma PackTwo(a: bv8, b: bv8)
    ensures var x := Pack(0, [a, b], 0); ByteOf(x, 0) == a && ByteOf(x, 1) == b && ByteOf(x, 2) == 0 && ByteOf(x, 3) == 0
  {
    var x1 := PutByte(PutByte(0, 0, a), 1, b);
    assert [a, b][1..] == [b] && [b][1..] == [];
    assert Pack(0, [a, b], 0) == Pack(PutByte(0, 0, a), [b], 1) == Pack(x1, [], 2);
    PutZero(x1, 2);
    PutZero(x1, 3);
    BytesOfWord(a, b, 0, 0);
  }

  lemma PackFour(a: bv8, b: bv8, c: bv8, e: bv8)
    ensures var x := Pack(0, [a, b, c, e], 0); ByteOf(x, 0) == a && ByteOf(x, 1) == b && ByteOf(x, 2) == c && ByteOf(x, 3) == e
  {
    var x1 := PutByte(PutByte(0, 0, a), 1, b);
    var x2 := PutByte(x1, 2, c);
    assert [a, b, c, e][1..] == [b, c, e] && [b, c, e][1..] == [c, e] && [c, e][1..] == [e] && [e][1..] == [];
    assert Pack(0, [a, b, c, e], 0) == Pack(PutByte(0, 0, a), [b, c, e], 1) == Pack(x1, [c, e], 2)
        == Pack(x2, [e], 3) == Pack(PutByte(x2, 3, e), [], 4);
    BytesOfWord(a, b, c, e);
  }

  /** Four bytes put in at positions 0 to 3 of a zero word are its four bytes. */
  lemma BytesOfWord(a: bv8, b: bv8, c: bv8, e: bv8)
    ensures var x := PutByte(PutByte(PutByte(PutByte(0, 0, a), 1, b), 2, c), 3, e);
      ByteOf(x, 0) == a && ByteOf(x, 1) == b && ByteOf(x, 2) == c && ByteOf(x, 3) == e
  {
  }

  /** Putting in a zero byte changes nothing. */
  lemma PutZero(w: bv32, k: bv8)
    requires k < 4
    ensures PutByte(w, k, 0) == w
  {
  }

  /** A port (below 32) plus a page register holding a multiple of 32 never wraps: the port's
      bits are the low five of the sum and the page is the rest. */
  lemma PortNoWrap(port: bv8, page: bv8)
    requires port < 32 && page & 0x1f == 0
    ensures (port + page) as int == port as int + page as int
    ensures (port + page) & 0x1f == port && (port + page) & 0xE0 == page
  {
  }

  /** An instrumentation header (????_?0?? with a nonzero size) counts one software packet and
      announces 1, 2 or 4 payload bytes for the port in its bits 7:3. */
  lemma InstrumentationHeader(d: Decoder, h: bv8)
    requires Inv(d) && d.state == Idle && h & 4 == 0 && h & 3 != 0
    ensures var t := Move(d, h);
      && t.frame.None? && t.dec.state == InInstrumentation(Size(h), 0, (h >> 3) & 0x1f, 0)
      && t.dec.i.pageRegister == d.i.pageRegister
      && t.dec.i.stats.instrupkts == d.i.stats.instrupkts + 1
  {
    ClassifyExact(h);
  }

  /** An instrumentation packet carries exactly the announced payload bytes, reported as a
      little-endian word on the header's port of the selected page. */
  lemma InstrumentationTokens(d: Decoder, h: bv8, p: seq<bv8>)
    requires Inv(d) && d.state == Idle && h & 4 == 0 && h & 3 != 0 && |p| == Size(h) as int
    ensures var f := Tokens(d, [h] + p);
      && f.result == Ok(Instrumentation(((h >> 3) & 0x1f) + d.i.pageRegister, Pack(0, p, 0), Size(h)))
      && f.used == 1 + |p| && f.dec.state == Idle
  {
    InstrumentationHeader(d, h);
    var t := Move(d, h);
    assert ([h] + p)[0] == h && ([h] + p)[1..] == p;
    InstrumentationRun(t.dec, p);
  }

  /** Through the decoder: an instrumentation packet whose bytes complete no synchronisation
      pattern. */
  lemma InstrumentationPacket(d: Decoder, h: bv8, p: seq<bv8>)
    requires Inv(d) && d.state == Idle && h & 4 == 0 && h & 3 != 0 && |p| == Size(h) as int
    requires SyncFree(d.i.lastBytes, [h] + p)
    ensures var f := FeedFrame(d, [h] + p);
      && f.result == Ok(Instrumentation(((h >> 3) & 0x1f) + d.i.pageRegister, Pack(0, p, 0), Size(h)))
      && f.used == 1 + |p| && f.dec.state == Idle
  {
    PlainFeed(d, [h] + p);
    InstrumentationTokens(d, h, p);
  }

  /** A page extension header followed by an instrumentation packet: the port is the header's
      port on the selected page. */
  lemma PagedInstrumentation(d: Decoder, t: bv8, h: bv8, p: seq<bv8>)
    requires Inv(d) && d.state == Idle && t & 0x8F == 0x0C
    requires h & 4 == 0 && h & 3 != 0 && |p| == Size(h) as int
    ensures Tokens(d, [t] + ([h] + p)).result == Ok(Instrumentation(((h >> 3) & 0x1f) + PageOf(t), Pack(0, p, 0), Size(h)))
  {
    PageMove(d, t);
    var d1 := Move(d, t).dec;
    assert [t][1..] == [];
    assert Tokens(d, [t]) == Feed(d1, Err(ShortData), 1);
    TokensResume(d, [t], [h] + p);
    InstrumentationTokens(d1, h, p);
  }

  /** Through the decoder: a page selection and an instrumentation packet, none of whose bytes
      is 0x7F or 0x80. */
  lemma PagedPacket(d: Decoder, t: bv8, h: bv8, p: seq<bv8>)
    requires Inv(d) && d.state == Idle && t & 0x8F == 0x0C
    requires h & 4 == 0 && h & 3 != 0 && |p| == Size(h) as int
    requires h != 0x7F && h != 0x80 && forall k :: 0 <= k < |p| ==> p[k] != 0x7F && p[k] != 0x80
    ensures FeedFrame(d, [t] + ([h] + p)).result == Ok(Instrumentation(((h >> 3) & 0x1f) + PageOf(t), Pack(0, p, 0), Size(h)))
  {
    var bytes := [t] + ([h] + p);
    forall k | 0 <= k < |bytes|
      ensures bytes[k] != 0x7F && bytes[k] != 0x80
    {
      if k >= 2 {
        assert bytes[k] == p[k - 2];
      }
    }
    PlainBytes(d.i.lastBytes, bytes);
    PlainFeed(d, bytes);
    PagedInstrumentation(d, t, h, p);
  }

  // ---------------------------------------------------------------------------------------------
  // Extension packets.

  /** What the extension state makes of the bytes p from byte number `count` on. */
  function XtnAccumulate(ex: bv32, p: seq<bv8>, count: bv8, bitcount: bv8): bv32
    requires count <= 5 && bitcount == 3 + 7 * count
    decreases |p|
  {
    if p == [] then ex
    else if count <= 4 then XtnAccumulate(XtnBits(ex, count, bitcount, p[0]), p[1..], count + 1, bitcount + 7)
    else XtnAccumulate(ex, p[1..], count, bitcount)
  }

  /** The number of payload bytes the extension state counts: at most five. */
  function XtnLen(count: bv8, n: nat): bv8
    requires count <= 5
    decreases n
  {
    if n == 0 then count else XtnLen(if count <= 4 then count + 1 else count, n - 1)
  }

  /** Reference: the extension value carried by p from byte number k on, each byte in its own
      field above the three bits of the header: bits 3+7k.. for the first four, bit 31 for the
      fifth, nothing for later bytes. */
  function XtnGroups(p: seq<bv8>, k: bv8): bv32
    requires k <= 5
    decreases |p|
  {
    if p == [] || k == 5 then 0
    else (if k < 4 then ((p[0] & 0x7f) as bv32) << (3 + 7 * k) else (p[0] as bv32) << 31) | XtnGroups(p[1..], k + 1)
  }

  /** The last extension byte (bit 7 clear) goes in while fewer than five are in, and ends the
      packet with the number of bytes counted. */
  lemma XtnLast(d: Decoder, tok: bv8)
    requires Inv(d) && d.state.InXtn? && tok & 0x80 == 0
    ensures var t := Move(d, tok); var st := d.state;
      var ex1 := if st.count <= 4 then XtnBits(st.ex, st.count, st.bitcount, tok) else st.ex;
      t.frame == Some(Xtn(st.source, if st.count <= 4 then st.count + 1 else st.count, ex1)) && t.dec.state == Idle
  {
  }

  /** An earlier extension byte (bit 7 set) goes in while fewer than five are in. */
  lemma XtnMore(d: Decoder, tok: bv8)
    requires Inv(d) && d.state.InXtn? && tok & 0x80 != 0
    ensures var t := Move(d, tok); var st := d.state;
      var ex1 := if st.count <= 4 then XtnBits(st.ex, st.count, st.bitcount, tok) else st.ex;
      t.frame.None? &&
      t.dec.state == (if st.count <= 4 then InXtn(ex1, st.source, st.bitcount + 7, st.count + 1) else st)
  {
  }

  /** The payload of an extension packet, from any point in it, up to the byte with bit 7 clear. */
  lemma {:induction false} XtnRun(d: Decoder, p: seq<bv8>)
    requires Inv(d) && d.state.InXtn? && Continued(p)
    ensures var f := Tokens(d, p); var st := d.state;
      && f.result == Ok(Xtn(st.source, XtnLen(st.count, |p|), XtnAccumulate(st.ex, p, st.count, st.bitcount)))
      && f.used == |p| && f.dec.state == Idle
    decreases |p|
  {
    if |p| == 1 {
      XtnLast(d, p[0]);
      assert XtnLen(d.state.count, 1) == XtnLen(if d.state.count <= 4 then d.state.count + 1 else d.state.count, 0);
    } else {
      assert p[0] & 0x80 != 0;
      assert Continued(p[1..]);
      XtnMore(d, p[0]);
      XtnRun(Move(d, p[0]).dec, p[1..]);
    }
  }

  /** The collected value is the header's bits with the payload fields ORed in. */
  lemma {:induction false} XtnAccumulateGroups(ex: bv32, p: seq<bv8>, count: bv8, bitcount: bv8)
    requires count <= 5 && bitcount == 3 + 7 * count
    ensures XtnAccumulate(ex, p, count, bitcount) == ex | XtnGroups(p, count)
    decreases |p|
  {
    if p == [] {
      OrZero32(ex);
    } else if count <= 4 {
      TakeXtn(ex, p[0], count, bitcount, XtnGroups(p[1..], count + 1));
      XtnAccumulateGroups(XtnBits(ex, count, bitcount, p[0]), p[1..], count + 1, bitcount + 7);
    } else {
      OrZero32(ex);
      XtnAccumulateGroups(ex, p[1..], count, bitcount);
    }
  }

  lemma TakeXtn(ex: bv32, tok: bv8, k: bv8, bitcount: bv8, rest: bv32)
    requires k <= 4 && bitcount == 3 + 7 * k
    ensures ex | ((if k < 4 then ((tok & 0x7f) as bv32) << (3 + 7 * k) else (tok as bv32) << 31) | rest)
      == XtnBits(ex, k, bitcount, tok) | rest
  {
  }

  lemma OrZero32(a: bv32)
    ensures a | 0 == a
  {
  }

  /** The counted length is the number of payload bytes, at most five. */
  lemma {:induction false} XtnLenMin(count: bv8, n: nat)
    requires count <= 5
    ensures XtnLen(count, n) as int == if count as int + n < 5 then count as int + n else 5
    decreases n
  {
    if n > 0 {
      XtnLenMin(if count <= 4 then count + 1 else count, n - 1);
    }
  }

  /** An extension packet with payload (header ????_1?00 with bit 7 set): the source flag is
      header bit 2, the value is the header's bits 6:4 with the payload fields above them, and
      the length counts the payload bytes, at most five. */
  lemma XtnTokens(d: Decoder, h: bv8, p: seq<bv8>)
    requires Inv(d) && d.state == Idle && h & 0x8B == 0x88 && Continued(p)
    ensures var f := Tokens(d, [h] + p);
      && f.result == Ok(Xtn(h & 4 != 0, XtnLen(0, |p|), (((h >> 4) as bv32) & 7) | XtnGroups(p, 0)))
      && f.used == 1 + |p| && f.dec.state == Idle
  {
    ClassifyExact(h);
    var t := Move(d, h);
    assert t.frame.None? && t.dec.state == InXtn(((h >> 4) as bv32) & 7, h & 4 != 0, 3, 0);
    assert ([h] + p)[0] == h && ([h] + p)[1..] == p;
    XtnRun(t.dec, p);
    XtnAccumulateGroups(((h >> 4) as bv32) & 7, p, 0, 3);
  }

  /** Through the decoder: an extension packet whose bytes complete no synchronisation pattern. */
  lemma XtnPacket(d: Decoder, h: bv8, p: seq<bv8>)
    requires Inv(d) && d.state == Idle && h & 0x8B == 0x88 && Continued(p)
    requires SyncFree(d.i.lastBytes, [h] + p)
    ensures var f := FeedFrame(d, [h] + p);
      && f.result == Ok(Xtn(h & 4 != 0, XtnLen(0, |p|), (((h >> 4) as bv32) & 7) | XtnGroups(p, 0)))
      && f.used == 1 + |p| && f.dec.state == Idle
  {
    PlainFeed(d, [h] + p);
    XtnTokens(d, h, p);
  }

  // ---------------------------------------------------------------------------------------------
  // GTS1 packets.

  /** What the GTS1 state makes of the bytes p from byte number `count` on: each of the first
      four overwrites its field of the global timestamp. */
  function Gts1Acc(gts: bv64, p: seq<bv8>, count: bv8): bv64
    requires count <= 4
    decreases |p|
  {
    if p == [] then gts
    else Gts1Acc(Gts1Field(count, gts, p[0]), p[1..], if count <= 3 then count + 1 else count)
  }

  /** The wrap flag after the bytes p from byte number `count` on: bit 6 of byte number 3. */
  function Gts1Wrap(wrap: bool, p: seq<bv8>, count: bv8): bool
    requires count <= 4
    decreases |p|
  {
    if p == [] then wrap
    else Gts1Wrap(if count == 3 then p[0] & 0x40 != 0 else wrap, p[1..], if count <= 3 then count + 1 else count)
  }

  /** The bits of the global timestamp that a GTS1 payload of n bytes carries: seven for each of
      the first three bytes and five for the fourth. */
  function Gts1Mask(n: nat): bv64
  {
    if n == 0 then 0 else if n == 1 then 0x7F else if n == 2 then 0x3FFF
    else if n == 3 then 0x1F_FFFF else 0x3FF_FFFF
  }

  /** Reference: the value of those bits, byte k of the payload in bits 7k and up. */
  function Gts1Bits(p: seq<bv8>): bv64
  {
    (if |p| > 0 then (p[0] & 0x7f) as bv64 else 0)
    | (if |p| > 1 then ((p[1] & 0x7f) as bv64) << 7 else 0)
    | (if |p| > 2 then ((p[2] & 0x7f) as bv64) << 14 else 0)
    | (if |p| > 3 then ((p[3] & 0x1f) as bv64) << 21 else 0)
  }

  /** The last GTS1 byte (bit 7 clear) overwrites its field, ends the packet, and its value
      becomes the global timestamp. */
  lemma Gts1Last(d: Decoder, tok: bv8)
    requires Inv(d) && d.state.InGts1? && tok & 0x80 == 0
    ensures var t := Move(d, tok); var st := d.state;
      var g := Gts1Field(st.count, st.gts, tok);
      && t.frame == Some(Globaltimestamp(if st.count == 3 then tok & 0x40 != 0 else st.wrap, g))
      && t.dec.state == Idle && t.dec.i.gtimestamp == g
  {
  }

  /** An earlier GTS1 byte (bit 7 set) overwrites its field. */
  lemma Gts1More(d: Decoder, tok: bv8)
    requires Inv(d) && d.state.InGts1? && tok & 0x80 != 0
    ensures var t := Move(d, tok); var st := d.state;
      && t.frame.None?
      && t.dec.state == InGts1(if st.count <= 3 then st.count + 1 else st.count, Gts1Field(st.count, st.gts, tok),
                               if st.count == 3 then tok & 0x40 != 0 else st.wrap)
  {
  }

  /** The payload of a GTS1 packet, from any point in it, up to the byte with bit 7 clear. */
  lemma {:induction false} Gts1Run(d: Decoder, p: seq<bv8>)
    requires Inv(d) && d.state.InGts1? && Continued(p)
    ensures var f := Tokens(d, p); var st := d.state; var g := Gts1Acc(st.gts, p, st.count);
      && f.result == Ok(Globaltimestamp(Gts1Wrap(st.wrap, p, st.count), g)) && f.dec.i.gtimestamp == g
      && f.used == |p| && f.dec.state == Idle
    decreases |p|
  {
    if |p| == 1 {
      Gts1Last(d, p[0]);
    } else {
      assert p[0] & 0x80 != 0;
      assert Continued(p[1..]);
      Gts1More(d, p[0]);
      Gts1Run(Move(d, p[0]).dec, p[1..]);
    }
  }

  /** Bytes after the fourth change nothing. */
  lemma {:induction false} Gts1Tail(g: bv64, wrap: bool, p: seq<bv8>)
    ensures Gts1Acc(g, p, 4) == g && Gts1Wrap(wrap, p, 4) == wrap
    decreases |p|
  {
    if p != [] {
      Gts1Tail(g, wrap, p[1..]);
    }
  }

  /** A GTS1 payload replaces exactly the bits it carries of the previous global timestamp and
      keeps all others; the wrap flag is bit 6 of the fourth byte, clear when there is none. */
  lemma Gts1Reference(g: bv64, p: seq<bv8>)
    ensures Gts1Acc(g, p, 0) == (g & !Gts1Mask(|p|)) | Gts1Bits(p)
    ensures Gts1Wrap(false, p, 0) == (|p| > 3 && p[3] & 0x40 != 0)
  {
    if |p| == 1 {
      Gts1Ref1(g, p);
    } else if |p| == 2 {
      Gts1Ref2(g, p);
    } else if |p| == 3 {
      Gts1Ref3(g, p);
    } else if |p| >= 4 {
      Gts1Ref4(g, p);
    }
  }

  lemma Gts1Ref1(g: bv64, p: seq<bv8>)
    requires |p| == 1
    ensures Gts1Acc(g, p, 0) == (g & !Gts1Mask(|p|)) | Gts1Bits(p) && !Gts1Wrap(false, p, 0)
  {
    assert Gts1Acc(g, p, 0) == Gts1Acc(Gts1Field(0, g, p[0]), [], 1);
    Gts1FieldIs(0, g, p[0]);
    assert Gts1Bits(p) == (p[0] & 0x7f) as bv64;
    Gts1Fields1(g, p[0]);
  }

  lemma Gts1Ref2(g: bv64, p: seq<bv8>)
    requires |p| == 2
    ensures Gts1Acc(g, p, 0) == (g & !Gts1Mask(|p|)) | Gts1Bits(p) && !Gts1Wrap(false, p, 0)
  {
    var a, b := p[0], p[1];
    assert p == [a, b];
    Gts1Unfold2(g, a, b);
    Gts1FieldIs(0, g, a);
    Gts1FieldIs(1, Gts1Field(0, g, a), b);
    Gts1BitsOf(a, b, 0, 0, 2);
    Gts1Fields2(g, a, b);
  }

  lemma Gts1Ref3(g: bv64, p: seq<bv8>)
    requires |p| == 3
    ensures Gts1Acc(g, p, 0) == (g & !Gts1Mask(|p|)) | Gts1Bits(p) && !Gts1Wrap(false, p, 0)
  {
    var a, b, c := p[0], p[1], p[2];
    assert p == [a, b, c];
    Gts1Unfold3(g, a, b, c);
    var g1 := Gts1Field(0, g, a);
    var g2 := Gts1Field(1, g1, b);
    Gts1FieldIs(0, g, a);
    Gts1FieldIs(1, g1, b);
    Gts1FieldIs(2, g2, c);
    Gts1BitsOf(a, b, c, 0, 3);
    Gts1Fields3(g, a, b, c);
  }

  lemma Gts1Ref4(g: bv64, p: seq<bv8>)
    requires |p| >= 4
    ensures Gts1Acc(g, p, 0) == (g & !Gts1Mask(|p|)) | Gts1Bits(p)
    ensures Gts1Wrap(false, p, 0) == (p[3] & 0x40 != 0)
  {
    assert p == [p[0], p[1], p[2], p[3]] + p[4..];
    Gts1Unfold4(g, p[0], p[1], p[2], p[3], p[4..]);
    Gts1Tail(Gts1Chain(g, p[0], p[1], p[2], p[3]), p[3] & 0x40 != 0, p[4..]);
    Gts1ChainIs(g, p[0], p[1], p[2], p[3]);
    Gts1BitsFour(p);
  }

  lemma Gts1BitsFour(p: seq<bv8>)
    requires |p| >= 4
    ensures Gts1Mask(|p|) == 0x3FF_FFFF
    ensures Gts1Bits(p) == (p[0] & 0x7f) as bv64 | (((p[1] & 0x7f) as bv64) << 7)
      | (((p[2] & 0x7f) as bv64) << 14) | (((p[3] & 0x1f) as bv64) << 21)
  {
  }

  /** The global timestamp after four GTS1 bytes. */
  function Gts1Chain(g: bv64, a: bv8, b: bv8, c: bv8, e: bv8): bv64
  {
    Gts1Field(3, Gts1Field(2, Gts1Field(1, Gts1Field(0, g, a), b), c), e)
  }

  lemma Gts1ChainIs(g: bv64, a: bv8, b: bv8, c: bv8, e: bv8)
    ensures Gts1Chain(g, a, b, c, e) == (g & !0x3FF_FFFF) | ((a & 0x7f) as bv64 | (((b & 0x7f) as bv64) << 7)
      | (((c & 0x7f) as bv64) << 14) | (((e & 0x1f) as bv64) << 21))
  {
    var g1 := Gts1Field(0, g, a);
    var g2 := Gts1Field(1, g1, b);
    var g3 := Gts1Field(2, g2, c);
    Gts1FieldIs(0, g, a);
    Gts1FieldIs(1, g1, b);
    Gts1FieldIs(2, g2, c);
    Gts1FieldIs(3, g3, e);
    Gts1Fields4(g, a, b, c, e);
  }

  /** The GTS1 state's fields: seven bits at 7k for bytes 0 to 2, five at 21 for byte 3. */
  lemma Gts1FieldIs(count: bv8, gts: bv64, tok: bv8)
    requires count <= 3
    ensures Gts1Field(count, gts, tok) == if count < 3 then SetField(gts, 0x7f, 7 * count, tok) else SetField(gts, 0x1f, 21, tok)
  {
  }

  /** One GTS1 byte taken off the front of the payload. */
  lemma Gts1Cons(g: bv64, w: bool, x: bv8, rest: seq<bv8>, count: bv8)
    requires count <= 4
    ensures var c1 := if count <= 3 then count + 1 else count;
      && Gts1Acc(g, [x] + rest, count) == Gts1Acc(Gts1Field(count, g, x), rest, c1)
      && Gts1Wrap(w, [x] + rest, count) == Gts1Wrap(if count == 3 then x & 0x40 != 0 else w, rest, c1)
  {
    assert ([x] + rest)[0] == x && ([x] + rest)[1..] == rest;
  }

  lemma Gts1Unfold2(g: bv64, a: bv8, b: bv8)
    ensures Gts1Acc(g, [a, b], 0) == Gts1Field(1, Gts1Field(0, g, a), b)
    ensures !Gts1Wrap(false, [a, b], 0)
  {
    assert [a, b] == [a] + [b] && [b] == [b] + [];
    Gts1Cons(g, false, a, [b], 0);
    Gts1Cons(Gts1Field(0, g, a), false, b, [], 1);
  }

  lemma Gts1Unfold3(g: bv64, a: bv8, b: bv8, c: bv8)
    ensures Gts1Acc(g, [a, b, c], 0) == Gts1Field(2, Gts1Field(1, Gts1Field(0, g, a), b), c)
    ensures !Gts1Wrap(false, [a, b, c], 0)
  {
    assert [a, b, c] == [a] + [b, c] && [b, c] == [b] + [c] && [c] == [c] + [];
    var g1 := Gts1Field(0, g, a);
    Gts1Cons(g, false, a, [b, c], 0);
    Gts1Cons(g1, false, b, [c], 1);
    Gts1Cons(Gts1Field(1, g1, b), false, c, [], 2);
  }

  lemma Gts1Unfold4(g: bv64, a: bv8, b: bv8, c: bv8, e: bv8, rest: seq<bv8>)
    ensures var p := [a, b, c, e] + rest;
      Gts1Acc(g, p, 0) == Gts1Acc(Gts1Chain(g, a, b, c, e), rest, 4) && Gts1Wrap(false, p, 0) == Gts1Wrap(e & 0x40 != 0, rest, 4)
  {
    assert [a, b, c, e] + rest == [a] + ([b] + ([c] + ([e] + rest)));
    var g1 := Gts1Field(0, g, a);
    var g2 := Gts1Field(1, g1, b);
    var g3 := Gts1Field(2, g2, c);
    Gts1Cons(g, false, a, [b] + ([c] + ([e] + rest)), 0);
    Gts1Cons(g1, false, b, [c] + ([e] + rest), 1);
    Gts1Cons(g2, false, c, [e] + rest, 2);
    Gts1Cons(g3, false, e, rest, 3);
  }

  /** The reference value of a payload, from its first bytes. */
  lemma Gts1BitsOf(a: bv8, b: bv8, c: bv8, e: bv8, n: nat)
    requires n >= 2
    ensures var p := if n == 2 then [a, b] else if n == 3 then [a, b, c] else [a, b, c, e];
      Gts1Bits(p) == (a & 0x7f) as bv64 | (((b & 0x7f) as bv64) << 7)
        | (if n >= 3 then ((c & 0x7f) as bv64) << 14 else 0) | (if n >= 4 then ((e & 0x1f) as bv64) << 21 else 0)
  {
  }

  lemma Gts1Fields1(g: bv64, a: bv8)
    ensures SetField(g, 0x7f, 0, a) == (g & !0x7F) | (a & 0x7f) as bv64
  {
  }

  lemma Gts1Fields2(g: bv64, a: bv8, b: bv8)
    ensures SetField(SetField(g, 0x7f, 0, a), 0x7f, 7, b)
      == (g & !0x3FFF) | ((a & 0x7f) as bv64 | (((b & 0x7f) as bv64) << 7))
  {
  }

  lemma Gts1Fields3(g: bv64, a: bv8, b: bv8, c: bv8)
    ensures SetField(SetField(SetField(g, 0x7f, 0, a), 0x7f, 7, b), 0x7f, 14, c)
      == (g & !0x1F_FFFF) | ((a & 0x7f) as bv64 | (((b & 0x7f) as bv64) << 7) | (((c & 0x7f) as bv64) << 14))
  {
  }

  lemma Gts1Fields4(g: bv64, a: bv8, b: bv8, c: bv8, e: bv8)
    ensures SetField(SetField(SetField(SetField(g, 0x7f, 0, a), 0x7f, 7, b), 0x7f, 14, c), 0x1f, 21, e)
      == (g & !0x3FF_FFFF) | ((a & 0x7f) as bv64 | (((b & 0x7f) as bv64) << 7) | (((c & 0x7f) as bv64) << 14)
                              | (((e & 0x1f) as bv64) << 21))
  {
  }

  /** A GTS1 packet (header 0x94) as the state machine folds it, from the stored global timestamp. */
  lemma Gts1Fold(d: Decoder, p: seq<bv8>)
    requires Inv(d) && d.state == Idle && Continued(p)
    ensures var f := Tokens(d, [0x94] + p); var g := Gts1Acc(d.i.gtimestamp, p, 0);
      && f.result == Ok(Globaltimestamp(Gts1Wrap(false, p, 0), g)) && f.dec.i.gtimestamp == g
      && f.used == 1 + |p| && f.dec.state == Idle
  {
    Gts1Header(d);
    HeaderThen(d, 0x94, p);
    Gts1Run(Move(d, 0x94).dec, p);
  }

  /** A GTS1 packet (header 0x94) starts from the stored global timestamp: the payload's bits
      replace those it carries, the result is reported with the wrap flag and stored. */
  lemma Gts1Tokens(d: Decoder, p: seq<bv8>)
    requires Inv(d) && d.state == Idle && Continued(p)
    ensures var f := Tokens(d, [0x94] + p); var g := (d.i.gtimestamp & !Gts1Mask(|p|)) | Gts1Bits(p);
      && f.result == Ok(Globaltimestamp(|p| > 3 && p[3] & 0x40 != 0, g)) && f.dec.i.gtimestamp == g
      && f.used == 1 + |p| && f.dec.state == Idle
  {
    Gts1Fold(d, p);
    Gts1Reference(d.i.gtimestamp, p);
  }

  lemma Gts1Header(d: Decoder)
    requires Inv(d) && d.state == Idle
    ensures var t := Move(d, 0x94); t.frame.None? && t.dec.state == InGts1(0, d.i.gtimestamp, false)
  {
    ClassifyExact(0x94);
  }

  /** Through the decoder: a GTS1 packet whose bytes complete no synchronisation pattern. */
  lemma Gts1Packet(d: Decoder, p: seq<bv8>)
    requires Inv(d) && d.state == Idle && Continued(p) && SyncFree(d.i.lastBytes, [0x94] + p)
    ensures var f := FeedFrame(d, [0x94] + p); var g := (d.i.gtimestamp & !Gts1Mask(|p|)) | Gts1Bits(p);
      && f.result == Ok(Globaltimestamp(|p| > 3 && p[3] & 0x40 != 0, g)) && f.dec.i.gtimestamp == g
      && f.used == 1 + |p| && f.dec.state == Idle
  {
    PlainFeed(d, [0x94] + p);
    Gts1Tokens(d, p);
  }

  /** A GTS1 packet never changes bits 26 and up of the global timestamp. */
  lemma Gts1KeepsHighBits(g: bv64, p: seq<bv8>)
    ensures SameHighBits((g & !Gts1Mask(|p|)) | Gts1Bits(p), g)
  {
    Gts1MaskLow(|p|);
    Gts1BitsLow(p);
    KeptBits(g, Gts1Mask(|p|), Gts1Bits(p));
  }

  lemma Gts1MaskLow(n: nat)
    ensures Gts1Mask(n) & GTS1_KEPT == 0
  {
  }

  lemma Gts1BitsLow(p: seq<bv8>)
    ensures Gts1Bits(p) & GTS1_KEPT == 0
  {
  }

  lemma KeptBits(g: bv64, m: bv64, v: bv64)
    requires m & GTS1_KEPT == 0 && v & GTS1_KEPT == 0
    ensures SameHighBits((g & !m) | v, g)
  {
  }

  // ---------------------------------------------------------------------------------------------
  // Hardware source packets.

  /** A header that starts a packet with payload: its byte goes in without a frame. */
  lemma HeaderThen(d: Decoder, h: bv8, p: seq<bv8>)
    requires Inv(d) && Move(d, h).frame.None?
    ensures var f := Tokens(Move(d, h).dec, p); Tokens(d, [h] + p) == f.(used := f.used + 1)
  {
    assert ([h] + p)[0] == h && ([h] + p)[1..] == p;
  }

  /** A payload byte that completes the packet. */
  lemma LastThen(d: Decoder, tok: bv8)
    requires Inv(d) && Move(d, tok).frame.Some?
    ensures var t := Move(d, tok); Tokens(d, [tok]) == Feed(t.dec, Ok(t.frame.value), 1)
  {
  }

  /** The headers of one-byte hardware packets select the state that takes the byte. */
  lemma OneByteHeader(d: Decoder, h: bv8)
    requires Inv(d) && d.state == Idle && (h == 0x05 || h == 0x1D || h == 0x15)
    ensures var t := Move(d, h);
      && t.frame.None?
      && t.dec.state == (if h == 0x05 then InEvent else if h == 0x1D then InPMUOverflow else InPCSample(1, 0, 0))
  {
    IdleMove(d, h);
    var i1 := Shifted(d, h);
    if h == 0x05 {
      assert Classify(h) == EventHdr;
    } else if h == 0x1D {
      assert Classify(h) == PMUOverflowHdr;
    } else {
      assert Classify(h) == PCSampleHdr && Size(h) == 1;
    }
    HardwareIdle(h, i1);
  }

  /** The registers after a byte is shifted in and counted, before the state sees it. */
  function Shifted(d: Decoder, tok: bv8): ITMInternal
  {
    d.i.(lastBytes := ShiftIn(d.i.lastBytes, tok), stats := d.i.stats.(inbytestotal := d.i.stats.inbytestotal + 1))
  }

  /** In Idle, a header that completes no frame leaves the decoder in the state the dispatch selects. */
  lemma IdleMove(d: Decoder, tok: bv8)
    requires Inv(d) && d.state == Idle
    ensures var o := IdleToken(tok, Shifted(d, tok));
      o.frame.None? ==> Move(d, tok) == Tick(Decoder(o.state, o.i), None)
  {
  }

  /** Hardware-source headers are handled by `HardwareHeader`, which changes no register. */
  lemma HardwareIdle(tok: bv8, i: ITMInternal)
    requires i.pageRegister & 0x1f == 0
    requires Classify(tok) in {EventHdr, DataTraceHdr, ExceptionHdr, PCSampleHdr, PMUOverflowHdr}
    ensures IdleToken(tok, i) == HardwareHeader(tok, i)
  {
  }

  /** What the one payload byte completes. */
  lemma OneBytePayload(d: Decoder, b: bv8)
    requires Inv(d) && (d.state == InEvent || d.state == InPMUOverflow || d.state == InPCSample(1, 0, 0))
    ensures var u := Move(d, b);
      && u.frame == Some(if d.state == InEvent then EventFrame(b) else if d.state == InPMUOverflow then PMUOverflow(b) else PCSleep(b == 0xFF))
      && u.dec.state == Idle
  {
  }

  /** So a one-byte hardware packet takes its header and the byte. */
  lemma OneByteTokens(d: Decoder, h: bv8, b: bv8)
    requires Inv(d) && d.state == Idle && (h == 0x05 || h == 0x1D || h == 0x15)
    ensures var f := Tokens(d, [h, b]);
      && f.result == Ok(if h == 0x05 then EventFrame(b) else if h == 0x1D then PMUOverflow(b) else PCSleep(b == 0xFF))
      && f.used == 2 && f.dec.state == Idle
  {
    OneByteHeader(d, h);
    OneBytePayload(Move(d, h).dec, b);
    assert [h, b] == [h] + [b];
    HeaderThen(d, h, [b]);
    LastThen(Move(d, h).dec, b);
  }

  /** 0x05 announces one event counter byte; bit k of it flags that counter k wrapped. */
  lemma EventTokens(d: Decoder, b: bv8)
    requires Inv(d) && d.state == Idle
    ensures var f := Tokens(d, [0x05, b]);
      && f.result == Ok(EventC(b & 1 != 0, b & 2 != 0, b & 4 != 0, b & 8 != 0, b & 16 != 0, b & 32 != 0))
      && f.used == 2 && f.dec.state == Idle
  {
    OneByteTokens(d, 0x05, b);
  }

  /** 0x1D announces one PMU overflow byte, reported as it is. */
  lemma PMUOverflowTokens(d: Decoder, b: bv8)
    requires Inv(d) && d.state == Idle
    ensures var f := Tokens(d, [0x1D, b]);
      f.result == Ok(PMUOverflow(b)) && f.used == 2 && f.dec.state == Idle
  {
    OneByteTokens(d, 0x1D, b);
  }

  /** 0x15 announces a one-byte PC sample: a sleep indication, prohibited when the byte is 0xFF. */
  lemma PCSleepTokens(d: Decoder, b: bv8)
    requires Inv(d) && d.state == Idle
    ensures var f := Tokens(d, [0x15, b]);
      f.result == Ok(PCSleep(b == 0xFF)) && f.used == 2 && f.dec.state == Idle
  {
    OneByteTokens(d, 0x15, b);
  }

  /** The exception number: the first payload byte and bit 0 of the second as bit 8. */
  lemma ExceptionNumber(b0: bv8, b1: bv8)
    ensures (b0 as bv16 | (((b1 as bv16) & 1) << 8)) as int == b0 as int + 256 * (b1 & 1) as int
  {
  }

  /** 0x0E announces two bytes: the exception number (nine bits) and, in bits 5:4 of the second,
      whether the exception was entered, exited or returned to. */
  lemma ExceptionTokens(d: Decoder, b0: bv8, b1: bv8)
    requires Inv(d) && d.state == Idle
    ensures var f := Tokens(d, [0x0E, b0, b1]);
      && f.result == Ok(Exception(b0 as bv16 | (((b1 as bv16) & 1) << 8), ExceptionEventOf(b1)))
      && f.used == 3 && f.dec.state == Idle
  {
    ClassifyExact(0x0E);
    var d1 := Move(d, 0x0E).dec;
    assert d1.state == InException(0, 0, 0);
    var d2 := Move(d1, b0).dec;
    assert Move(d1, b0).frame.None? && d2.state == InException(b0 as bv16, 1, 0);
    assert [0x0E, b0, b1] == [0x0E] + ([b0] + [b1]);
    HeaderThen(d, 0x0E, [b0] + [b1]);
    HeaderThen(d1, b0, [b1]);
    LastThen(d2, b1);
  }

  /** Through the decoder: an exception packet whose bytes complete no synchronisation pattern
      reports the nine-bit exception number. */
  lemma ExceptionPacket(d: Decoder, b0: bv8, b1: bv8)
    requires Inv(d) && d.state == Idle && SyncFree(d.i.lastBytes, [0x0E, b0, b1])
    ensures var f := FeedFrame(d, [0x0E, b0, b1]);
      && f.result.Ok? && f.result.value.Exception? && f.result.value.event == ExceptionEventOf(b1)
      && f.result.value.no as int == b0 as int + 256 * (b1 & 1) as int
      && f.used == 3 && f.dec.state == Idle
  {
    PlainFeed(d, [0x0E, b0, b1]);
    ExceptionTokens(d, b0, b1);
    ExceptionNumber(b0, b1);
  }

  /** The last data trace byte goes in as the top byte of the value; a one-byte comparator match
      with bit 0 set reports the match alone. */
  lemma DataTraceLast(d: Decoder, tok: bv8)
    requires Inv(d) && d.state.InDataTrace? && d.state.count + 1 == d.state.len
    ensures var t := Move(d, tok); var st := d.state;
      && t.frame == Some(if st.dtType == Match && st.len == 1 && tok & 1 == 1 then DataTraceMatch(st.index)
                         else DataTraceFrame(st.index, PutByte(st.addr, st.count, tok), st.len, st.dtType, st.wnr))
      && t.dec.state == Idle
  {
  }

  /** An earlier data trace byte goes in as the next byte of the value. */
  lemma DataTraceMore(d: Decoder, tok: bv8)
    requires Inv(d) && d.state.InDataTrace? && d.state.count + 1 != d.state.len
    ensures var t := Move(d, tok); var st := d.state;
      && t.frame.None?
      && t.dec.state == InDataTrace(st.index, st.len, st.count + 1, PutByte(st.addr, st.count, tok), st.dtType, st.wnr)
  {
  }

  /** The rest of a data trace payload, exactly as many bytes as are still announced. */
  lemma {:induction false} DataTraceRun(d: Decoder, p: seq<bv8>)
    requires Inv(d) && d.state.InDataTrace? && Left(d.state.count, d.state.len, |p|)
    ensures var f := Tokens(d, p); var st := d.state;
      && f.result == Ok(if st.dtType == Match && st.len == 1 && p[0] & 1 == 1 then DataTraceMatch(st.index)
                        else DataTraceFrame(st.index, Pack(st.addr, p, st.count), st.len, st.dtType, st.wnr))
      && f.used == |p| && f.dec.state == Idle
    decreases |p|
  {
    if |p| == 1 {
      DataTraceLast(d, p[0]);
      assert [p[0]] == p;
    } else {
      LeftStep(d.state.count, d.state.len, |p|);
      DataTraceMore(d, p[0]);
      DataTraceRun(Move(d, p[0]).dec, p[1..]);
    }
  }

  /** A data trace header (01??_?1?? or 10??_?1?? with a nonzero size) announces 1, 2 or 4
      bytes for comparator (bits 5:4), of the kind its bits select. */
  lemma DataTraceHeader(d: Decoder, h: bv8)
    requires Inv(d) && d.state == Idle && IsDataTraceHeader(h) && h & 3 != 0
    ensures var t := Move(d, h);
      t.frame.None? && t.dec.state == InDataTrace((h >> 4) & 3, Size(h), 0, 0, DtType(h), h & 8 != 0)
  {
    ClassifyExact(h);
  }

  /** A data trace packet carries exactly the announced bytes, reported little-endian as the
      PC, the address or the value (with the write flag, header bit 3) the header selects; a
      one-byte comparator match (01??_0101) with bit 0 of its byte set reports the match alone. */
  lemma DataTraceTokens(d: Decoder, h: bv8, p: seq<bv8>)
    requires Inv(d) && d.state == Idle && IsDataTraceHeader(h) && h & 3 != 0 && |p| == Size(h) as int
    ensures var f := Tokens(d, [h] + p); var index := (h >> 4) & 3;
      && f.result == Ok(if DtType(h) == Match && Size(h) == 1 && p[0] & 1 == 1 then DataTraceMatch(index)
                        else DataTraceFrame(index, Pack(0, p, 0), Size(h), DtType(h), h & 8 != 0))
      && f.used == 1 + |p| && f.dec.state == Idle
  {
    DataTraceHeader(d, h);
    HeaderThen(d, h, p);
    DataTraceRun(Move(d, h).dec, p);
  }

  /** The kinds of data trace packet by header bits: a match is always a one-byte packet, and
      only the 10??_?1?? headers carry a data value. */
  lemma DataTraceKinds(h: bv8)
    requires IsDataTraceHeader(h) && h & 3 != 0
    ensures DtType(h) == Match ==> Size(h) == 1
    ensures DtType(h) == DataValMatch <==> h & 0xC0 == 0x80
    ensures DtType(h) == DataAddrMatch <==> h & 0xCC == 0x4C
  {
  }

  /** Through the decoder: a data trace packet whose bytes complete no synchronisation pattern. */
  lemma DataTracePacket(d: Decoder, h: bv8, p: seq<bv8>)
    requires Inv(d) && d.state == Idle && IsDataTraceHeader(h) && h & 3 != 0 && |p| == Size(h) as int
    requires SyncFree(d.i.lastBytes, [h] + p)
    ensures var f := FeedFrame(d, [h] + p); var index := (h >> 4) & 3;
      && f.result == Ok(if DtType(h) == Match && Size(h) == 1 && p[0] & 1 == 1 then DataTraceMatch(index)
                        else DataTraceFrame(index, Pack(0, p, 0), Size(h), DtType(h), h & 8 != 0))
      && f.used == 1 + |p| && f.dec.state == Idle
  {
    PlainFeed(d, [h] + p);
    DataTraceTokens(d, h, p);
  }

  /** The last PC sample byte goes in as the top byte of the address. */
  lemma PCSampleLast(d: Decoder, tok: bv8)
    requires Inv(d) && d.state.InPCSample? && d.state.len != 1 && d.state.count + 1 == d.state.len
    ensures var t := Move(d, tok); var st := d.state;
      t.frame == Some(PCSample(PutByte(st.addr, st.count, tok))) && t.dec.state == Idle
  {
  }

  /** An earlier PC sample byte goes in as the next byte of the address. */
  lemma PCSampleMore(d: Decoder, tok: bv8)
    requires Inv(d) && d.state.InPCSample? && d.state.len != 1 && d.state.count + 1 != d.state.len
    ensures var t := Move(d, tok); var st := d.state;
      t.frame.None? && t.dec.state == InPCSample(st.len, st.count + 1, PutByte(st.addr, st.count, tok))
  {
  }

  /** The rest of a multi-byte PC sample. */
  lemma {:induction false} PCSampleRun(d: Decoder, p: seq<bv8>)
    requires Inv(d) && d.state.InPCSample? && d.state.len != 1 && Left(d.state.count, d.state.len, |p|)
    ensures var f := Tokens(d, p); var st := d.state;
      f.result == Ok(PCSample(Pack(st.addr, p, st.count))) && f.used == |p| && f.dec.state == Idle
    decreases |p|
  {
    if |p| == 1 {
      PCSampleLast(d, p[0]);
      assert [p[0]] == p;
    } else {
      LeftStep(d.state.count, d.state.len, |p|);
      PCSampleMore(d, p[0]);
      PCSampleRun(Move(d, p[0]).dec, p[1..]);
    }
  }

  /** 0x17 announces a four-byte PC sample: the little-endian program counter. */
  lemma PCSampleTokens(d: Decoder, p: seq<bv8>)
    requires Inv(d) && d.state == Idle && |p| == 4
    ensures var f := Tokens(d, [0x17] + p);
      f.result == Ok(PCSample(Pack(0, p, 0))) && f.used == 5 && f.dec.state == Idle
  {
    ClassifyExact(0x17);
    assert Move(d, 0x17).dec.state == InPCSample(4, 0, 0);
    HeaderThen(d, 0x17, p);
    PCSampleRun(Move(d, 0x17).dec, p);
  }
}
