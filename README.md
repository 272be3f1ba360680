# Orbuculum trace decoders in Dafny

This project models the three byte-level decoders that the Orbuculum collector chains together, and
proves properties of the models:

- **COBS** (`cobs.dfy`, module `Cobs`). Consistent Overhead Byte Stuffing (Cheshire and Baker,
  IEEE/ACM Transactions on Networking 7(2), 1999) cuts the byte stream into packets.
  - The decoder is the class `Cobs.Cobs`. It is a three-state machine (Idle, Rxing, Flushing) with
    five statistics counters. It fills a caller-supplied output vector (`Cobs.ByteVec`) of bounded
    capacity in place.
  - The encoder builds its output in place. It pushes a placeholder for each run-length byte and
    patches it when the run ends.
  - Each method is proved against a pure function: `TokenStep`, `GetByteStep`, `FeedFrame`, `Encoded`.
    The lemmas about those functions give the round trip, the length bound, and the error and flush
    accounting.
  - The class follows the code as written, including an error path that loses the packet after a
    short one (see "## Findings"). The corrected error path is modelled beside it as
    `ResyncGetByteStep` and `ResyncFeedFrame`.
- **OFLOW** (`oflow.dfy`, module `OFlow`). It checks one frame: a stream-number byte, a payload,
  and a checksum byte that makes the frame sum to zero modulo 256. It then exposes the payload.
  - `OFlow.OFlow.Decode` sums the bytes in a loop and is proved equal to the pure `DecodeResult`.
- **ITM/DWT** (`itm.dfy`, `itm_lemmas.dfy`, `itm_vectors.dfy`). The packet decoder of Appendix F
  of the Arm v8-M Architecture Reference Manual (DDI0553B.v).
  - The decoder keeps a 64-bit shift register of the last eight bytes. Before any state sees a
    byte, the register is checked for the TPIU and ITM synchronisation patterns.
  - In the Idle state, the header byte selects the kind of packet; each kind then collects its
    payload byte by byte.
  - The class `Itm.ITMDecoder` holds the current state and the shared registers
    (`ITMInternal`: shift register, page register, last global timestamp, statistics). Its `Token`
    and `GetFrame` methods are proved equal to the pure `Step` and `FeedFrame`.
  - `ItmLemmas` proves what each packet kind decodes to, for any payload: a fold over the payload
    is matched against an independent reference definition.
  - `ItmVectors` restates each of the repository's unit tests as a lemma.

`common.dfy` holds `Option`/`Result` and the `byte` type that the COBS and OFLOW layers use. The
ITM decoder works on `bv8`/`bv16`/`bv32`/`bv64`, the widths of the Rust fields. All statistics
counters are naturals.

## Model

| member | source | states |
|---|---|---|
| OFlow.ChecksumByte | oflow/src/lib.rs:107-112 | the checksum byte makes the byte sum of the frame 0 modulo 256 |
| OFlow.OFlowFrame.Content | oflow/src/lib.rs:53-55 | the payload is len-2 bytes long and its byte k is byte k+1 of the frame |
| OFlow.OFlowFrame.Deref | oflow/src/lib.rs:66-72 | dereferencing gives the len-2 payload bytes, byte k being `frame[k]` |
| OFlow.OFlowFrame.Index | oflow/src/lib.rs:58-64 | `frame[i]` is payload byte i; one index past the payload yields the checksum byte, since the bound is that of the whole vector |
| OFlow.DecodeResult | oflow/src/lib.rs:100-126 | ShortData exactly when fewer than 3 bytes; Overlong exactly when more than 8194; BadChecksum exactly when the length is acceptable and the sum is not 0 mod 256; otherwise Ok, with stream number `ip[0]` and content/deref `ip[1..len-1]` of length len-2; never Unimplemented |
| OFlow.SumSnoc | oflow/src/lib.rs:106-109 | appending a byte adds it to the running sum |
| OFlow.ChecksummedFrameDecodes | oflow/src/lib.rs:100-126 | a stream byte, a payload of 1 to 8192 bytes and its checksum byte always decode, back to that stream number and payload |
| OFlow.OnlyChecksumByteDecodes | oflow/src/lib.rs:107-125 | for a frame of acceptable length, it decodes exactly when its last byte is the checksum of the rest |
| OFlow.OFlow.constructor | oflow/src/lib.rs:95-97 | a new instance has all six statistics at zero |
| OFlow.OFlow.Decode | oflow/src/lib.rs:100-126 | the summing loop returns `DecodeResult(ip)`; inpackets +1 and inbytestotal +(len-2) on success, inerrpackets +1 on a bad checksum only, nothing else changes |
| OFlow.OFlow.Encode | oflow/src/lib.rs:129-138 | always Unimplemented, no statistic changes |
| OFlow.GoodPacketExample | oflow/src/test_lib/mod.rs:4-16 | frame 27 1 2 3 223 decodes to content, deref and indices 1 2 3 |
| OFlow.RejectedPacketExamples | oflow/src/test_lib/mod.rs:18-40 | bad checksum, 2-byte and 8195-byte vectors give BadChecksum, ShortData, Overlong |
| OFlow.SumOfFrame | oflow/src/lib.rs:106-109 | the running sum of five bytes is their arithmetic sum |
| Cobs.WrappingDec | cobs/src/lib.rs:339 | the u8 decrement of `rxc` wraps: 0 becomes 255 |
| Cobs.TokenStep | cobs/src/lib.rs:334-383 | one byte changes only the state, the run counter and the 255-run flag; Complete exactly on a sentinel at the end of a run (to Idle), Error exactly on a sentinel inside a run (to Flushing), Flushing exactly on a non-sentinel while flushing; a stored byte is the data byte, or the implicit sentinel at the end of a run |
| Cobs.GetByteStep | cobs/src/lib.rs:294-331 | one byte: inbytes +1, the output stays within capacity, the result is Ok exactly on Complete (packets +1, goodbytes + output length, output kept), otherwise Ongoing with packets and goodbytes unchanged |
| Cobs.FeedFrame | cobs/src/lib.rs:246-266 | feeding bytes: Ok after the first completed packet, ShortData only when all bytes were used; inbytes grows by the bytes used, packets by one exactly on Ok |
| Cobs.MaxPossibleEncLen | cobs/src/lib.rs:405-407 | the estimate is at least n + 2 |
| Cobs.MaxEncLen | cobs/src/lib.rs:76-78 | the 2 + n + n/254 bound of the constant's comment is at least the code's estimate |
| Cobs.OverlongCheckAgrees | cobs/src/lib.rs:463-466 | the estimate exceeds MAX_ENC_PACKET_LEN exactly when the input exceeds 8192 bytes (for both the /256 and the /254 estimate) |
| Cobs.EncStep | cobs/src/lib.rs:471-486 | one encoder step keeps the open run at most 254 bytes |
| Cobs.EncFold | cobs/src/lib.rs:468-486 | the encoder loop: the open run holds no sentinel and at most 254 bytes; with sentinel 0 no finished byte is 0; one extra byte per 254 inputs at most |
| Cobs.EncFoldNext | cobs/src/lib.rs:471-486 | the loop state after k+1 input bytes is one step from the state after k |
| Cobs.EncFoldOpenSuffix | cobs/src/lib.rs:471-486 | the open run is a suffix of the input |
| Cobs.EncFoldSnoc | cobs/src/lib.rs:471-486 | encoding an input with one more byte is one more step |
| Cobs.Encoded | cobs/src/lib.rs:468-490 | the encoding is at least two bytes longer than the input and ends in the sentinel |
| Cobs.EncodedShape | cobs/src/lib.rs:468-490 | the encoding ends in the sentinel, is at most 2 + n + n/254 bytes long, and with sentinel 0 no other byte is 0, so every run-length byte is in 1..255 |
| Cobs.EncodedFits | cobs/src/lib.rs:76-78 | an accepted input (at most 8192 bytes) encodes into at most MAX_ENC_PACKET_LEN bytes |
| Cobs.EncodedLengthWithoutSentinel | cobs/src/lib.rs:471-490 | an input of n >= 1 bytes with no sentinel encodes into exactly n + (n-1)/254 + 2 bytes |
| Cobs.EncFoldLengths | cobs/src/lib.rs:471-486 | without sentinels the open run holds the last (n-1) % 254 + 1 bytes and each full run of 254 bytes added one run-length byte |
| Cobs.MaxPossibleEncLenTooSmall | cobs/src/lib.rs:405-407 | 255 nonzero bytes encode into 258 bytes, one more than `max_possible_enc_len`'s 257 |
| Cobs.EncodeExample | cobs/src/lib.rs:422-427 | 11 22 33 44 encodes as 05 11 22 33 44 00 |
| Cobs.FeedFrameAppend | cobs/src/lib.rs:246-266 | a call that runs out of bytes leaves the packet pending; a second call with the rest ends as one call with all the bytes would |
| Cobs.FeedRunData | cobs/src/lib.rs:299-330 | inside a run, its r-1 data bytes are appended to the output |
| Cobs.FeedRun | cobs/src/lib.rs:334-383 | one run from a run boundary appends its data, touches no counter but inbytes, and ends at the next boundary; a run of 255 adds no implicit sentinel |
| Cobs.CloseRun | cobs/src/lib.rs:340-361 | appending one run to a stream that decodes to a boundary decodes to the next boundary, with an implicit 0 unless the run length is 0xFF |
| Cobs.EncStepDecodes | cobs/src/lib.rs:471-486 | each encoder step keeps the finished runs decoding to the input less the open run |
| Cobs.FinishedRunsDecode | cobs/src/lib.rs:471-486 | the finished runs of any encoding decode, from Idle, to the input less the open run |
| Cobs.FinishedRunsStep | cobs/src/lib.rs:471-486 | one more input byte keeps the finished runs decoding to the input less the open run |
| Cobs.FinalSentinel | cobs/src/lib.rs:362-363 | a sentinel at a run boundary completes the packet: Ok, Idle, packets +1, goodbytes + output length |
| Cobs.BodyDecodes | cobs/src/lib.rs:487-489 | the whole encoding except its final sentinel leaves exactly the input in the output |
| Cobs.RoundTrip | cobs/src/lib.rs:193-198 | from Idle with sentinel 0 and an empty output with room for the input, decoding the encoding of any input returns Ok on its final sentinel with output == input, one packet and \|ip\| good bytes, no bad bytes |
| Cobs.DecodeExample | cobs/src/lib.rs:193-198 | 05 11 22 33 44 00 decodes to 11 22 33 44 |
| Cobs.FlushingDiscards | cobs/src/lib.rs:374-381 | in Flushing every non-sentinel byte adds 1 to badbytes and nothing else changes |
| Cobs.Resynchronises | cobs/src/lib.rs:374-381 | from Flushing, junk up to a sentinel is counted bad and the packet after that sentinel decodes to its input |
| Cobs.ShortPacketLosesNext | cobs/src/lib.rs:364-366 | as written, a sentinel inside a run also costs the next packet: from Rxing, a sentinel followed by a whole encoded packet gives ShortData, an empty output, Idle, no new packet, and every byte of that packet but its sentinel counted bad |
| Cobs.ResyncGetByteStep | cobs/src/lib.rs:299-305 | the corrected `get_byte`: a sentinel inside a run clears the output, counts its length bad and leaves the decoder Idle; every other byte acts as in `get_byte` |
| Cobs.ResyncFeedFrame | cobs/src/lib.rs:246-266 | `get_frame` over the corrected `get_byte`: within capacity, sentinel kept, at most all bytes used |
| Cobs.ResyncAgrees | cobs/src/lib.rs:334-383 | the correction changes nothing on a stream that completes a packet and has no sentinel before its last byte |
| Cobs.ResyncAfterShortPacket | cobs/src/lib.rs:4-9 | with the correction, the packet after a short one decodes to its input, and only the abandoned bytes are counted bad |
| Cobs.GetByteErrors | cobs/src/lib.rs:299-319 | a sentinel mid-run clears the output, adds its length to badbytes and flushes; any store into a full output (a data byte, or the implicit sentinel stored when a byte ends a run) does the same and counts toolong; Flushing leaves only on a sentinel |
| Cobs.RunEnd | cobs/src/lib.rs:353-361 | at the end of a run a non-sentinel byte is the next run length, with an implicit sentinel stored unless the previous run had length 0xFF |
| Cobs.DefaultSentinelNoWrap | cobs/src/lib.rs:339-348 | with sentinel 0 the run counter never wraps around |
| Cobs.ByteVec.WithCapacity | cobs/src/lib.rs:429-430 | an empty vector of the given capacity |
| Cobs.Cobs.constructor | cobs/src/lib.rs:116-128 | Idle, default sentinel 0, every counter 0 |
| Cobs.Cobs.SetSentinel | cobs/src/lib.rs:144-151 | fails with Busy exactly when Rxing and not forced (sentinel kept); otherwise sets the sentinel |
| Cobs.Cobs.Stats | cobs/src/lib.rs:167-175 | returns the five counters in source order |
| Cobs.Cobs.ProcessToken | cobs/src/lib.rs:334-383 | the new registers, stored value and action are those of `TokenStep` |
| Cobs.Cobs.GetByte | cobs/src/lib.rs:294-331 | decoder and output vector change as `GetByteStep` says, within capacity |
| Cobs.Cobs.GetFrame | cobs/src/lib.rs:246-266 | the loop over the bytes changes decoder and output as `FeedFrame` says |
| Cobs.Cobs.GetFrameAsVec | cobs/src/lib.rs:201-217 | the packet in a fresh 8192-byte vector on Ok; on ShortData the partial packet is counted bad and the decoder flushes |
| Cobs.Cobs.CobsEncode | cobs/src/lib.rs:458-492 | ZeroLength exactly for empty input, Overlong exactly above 8192 bytes, otherwise Ok with `e` holding `Encoded(ip, sentinel)` built by back-patching |
| Cobs.Cobs.FinishPacket | cobs/src/lib.rs:487-489 | patches the last run length and appends the sentinel |
| Cobs.Cobs.EncodeByte | cobs/src/lib.rs:471-486 | one loop iteration takes `e` from one encoder state to `EncStep` of it |
| Cobs.Cobs.CobsEncodeIntoVec | cobs/src/lib.rs:429-435 | the same errors, and on Ok the encoding, at most MAX_ENC_PACKET_LEN bytes |
| Cobs.EncodeThenDecode | cobs/src/lib.rs:193-198 | encoding then decoding with fresh default instances returns the input |
| Itm.ClassifyExact | itm/src/lib.rs:335-358 | the Idle dispatch in closed form: which header bytes reach each packet kind, noise included |
| Itm.Classify | itm/src/lib.rs:335-358 | the arms that take a payload size from the header see nonzero size bits, and only data trace headers reach `DataTrace::matches`, so its panic arm (822-824) is unreachable |
| Itm.DtType | itm/src/lib.rs:815-825 | DataValMatch exactly when bit 7 is set; Match exactly for `01??_0101`; PCMatch for the other `01??_01??`; DataAddrMatch exactly for `01??_11??` |
| Itm.Size | itm/src/lib.rs:420 | size code 1, 2, 3 gives 1, 2, 4 payload bytes |
| Itm.LtsHeader | itm/src/lib.rs:546-569 | an LTS header emits a one-byte Sync timestamp or enters the multi-byte state, leaving the registers |
| Itm.PageOf | itm/src/lib.rs:477-479 | a page value is a multiple of 32 |
| Itm.XtnHeader | itm/src/lib.rs:473-501 | an extension header changes at most the page register, which stays a multiple of 32; with bit 7 clear it returns to Idle, and with bit 2 set it only selects the page, with bit 2 clear it emits Xtn(false, 0, bits 6:4); with bit 7 set it starts collecting with ex = bits 6:4 and source = bit 2 |
| Itm.IdleToken | itm/src/lib.rs:327-358 | the Idle dispatch keeps the page register a multiple of 32 and starts GTS1 from the stored global timestamp |
| Itm.SoftwareHeader | itm/src/lib.rs:335-345 | software-source headers keep the invariants of the dispatch |
| Itm.HardwareHeader | itm/src/lib.rs:349-353 | hardware-source headers change no register and emit nothing |
| Itm.PutByte | itm/src/lib.rs:396-399 | storing payload byte k changes only byte k of the word |
| Itm.InstrumentationToken | itm/src/lib.rs:390-412 | an instrumentation payload byte keeps the state invariant and the registers |
| Itm.XtnToken | itm/src/lib.rs:442-470 | an extension payload byte keeps the state invariant and the registers |
| Itm.LtsToken | itm/src/lib.rs:514-543 | a local timestamp payload byte keeps the state invariant and the registers |
| Itm.Group7 | itm/src/lib.rs:520-523 | with at most 4 groups the timestamp stays below 2^28; with at most 7, below 2^49 |
| Itm.Gts2Token | itm/src/lib.rs:581-605 | a GTS2 byte changes only the stored global timestamp, and only when it emits a Globaltimestamp (never wrapped) carrying that value |
| Itm.Gts1Token | itm/src/lib.rs:624-652 | a GTS1 byte keeps bits 26 and up of the previous global timestamp and stores the emitted value |
| Itm.Gts1Field | itm/src/lib.rs:630-638 | one GTS1 field update keeps the bits above the carried fields |
| Itm.SetFieldKeepsHighBits | itm/src/lib.rs:637 | overwriting a 7-bit field of bytes 1-3 keeps the high bits |
| Itm.SetLastFieldKeepsHighBits | itm/src/lib.rs:634-635 | overwriting the 5-bit field of byte 4 keeps the high bits |
| Itm.ExceptionToken | itm/src/lib.rs:678-708 | an exception payload byte keeps the state invariant and the registers |
| Itm.DataTraceFrame | itm/src/lib.rs:760-798 | a completed data trace packet is never a sync frame |
| Itm.DataTraceToken | itm/src/lib.rs:745-802 | a data trace payload byte keeps the state invariant and the registers |
| Itm.PCSampleToken | itm/src/lib.rs:843-868 | a PC sample payload byte keeps the state invariant and the registers |
| Itm.StateToken | itm/src/lib.rs:304-305 | every state keeps the decoder invariant and the shared counters |
| Itm.PacketToken | itm/src/lib.rs:304-305 | every payload state keeps the page register and statistics |
| Itm.ItmPacketToken | itm/src/lib.rs:390-666 | the software-source payload states keep the page register and statistics |
| Itm.DwtPacketToken | itm/src/lib.rs:678-939 | the hardware-source payload states change no register |
| Itm.ShiftIn | itm/src/lib.rs:279 | the new byte is the low byte of the register, and the older bytes move up by one byte, the oldest one dropping out |
| Itm.IsTpiuSync | itm/src/lib.rs:283 | a TPIU sync needs 0x7F as the last byte received |
| Itm.IsItmSync | itm/src/lib.rs:294 | an ITM sync needs 0x80 as the last byte received |
| ItmLemmas.SyncPatternBytes | itm/src/lib.rs:14-17 | byte by byte, TPIU sync is exactly FF FF FF 7F in the low 32 bits of the shift register, and ITM sync exactly 00 00 00 00 00 80 in its low 48 bits |
| Itm.Step | itm/src/lib.rs:276-317 | one byte: the shift register takes it, inbytestotal +1, inpackets +1 exactly when a frame is returned, the context-id length is kept |
| Itm.Move | itm/src/lib.rs:303-316 | the state's handling of a byte (no sync seen) has the same counter behaviour and never emits a sync frame |
| Itm.FeedFrame | itm/src/lib.rs:258-273 | `get_frame`: ShortData only when every byte was used; inbytestotal grows by the bytes used; inpackets by one exactly on Ok |
| Itm.ITMDecoder.constructor | itm/src/lib.rs:197-202 | Unsynced with all registers and statistics zero |
| Itm.ITMDecoder.Stats | itm/src/lib.rs:216-218 | returns the statistics |
| Itm.ITMDecoder.SetContextIdlen | itm/src/lib.rs:230-232 | sets only the context-id length |
| Itm.ITMDecoder.Token | itm/src/lib.rs:276-317 | the decoder changes as `Step` says |
| Itm.ITMDecoder.Dispatch | itm/src/lib.rs:303-316 | the current state's handling of a byte changes the decoder as `Move` says |
| Itm.ITMDecoder.GetFrame | itm/src/lib.rs:258-273 | the loop over the bytes changes the decoder as `FeedFrame` says |
| ItmLemmas.Run | itm/src/lib.rs:279-280 | after any bytes, the shift register holds them, inbytestotal grew by their count, and itmsync is unchanged when they contain no sync pattern |
| ItmLemmas.PatternsExclusive | itm/src/lib.rs:14-17 | the TPIU and ITM sync patterns never match at once |
| ItmLemmas.SyncIff | itm/src/lib.rs:283-302 | from any state, a byte yields TPIUSync (to Unsynced) exactly when the low 32 bits of the shift register hold FF FF FF 7F, and Sync (to Idle, page register 0) exactly when its low 48 bits hold 00 00 00 00 00 80; the register starts at zero, so a fresh decoder syncs on a lone 0x80 |
| ItmLemmas.SyncCounters | itm/src/lib.rs:283-302 | the sync frames carry the incremented tpiusync/itmsync counts and add one to inpackets |
| ItmLemmas.SyncFromAnyState | itm/src/lib.rs:293-302 | from any state, even mid-packet, five zeros and 0x80 yield Sync, page register 0, Idle |
| ItmLemmas.ZerosShiftOut | itm/src/lib.rs:279 | five zeros shift the register by 40 bits and contain no sync pattern |
| ItmLemmas.UnsyncedStep | itm/src/lib.rs:368-376 | in Unsynced a byte that completes neither sync pattern is only counted: no frame, still Unsynced |
| ItmLemmas.UnsyncedSilent | itm/src/lib.rs:258-273 | a stream without a sync pattern leaves the decoder Unsynced, and `get_frame` returns ShortData |
| ItmLemmas.FeedFrameResume | itm/src/lib.rs:258-273 | after ShortData the partial packet is kept: a second call ends as one call with all the bytes |
| ItmLemmas.FeedFrameStops | itm/src/lib.rs:262-264 | `get_frame` stops at the first frame: later bytes are not consumed |
| ItmLemmas.Tokens | itm/src/lib.rs:303-316 | the packet layer without sync checks, with the same ShortData behaviour |
| ItmLemmas.PlainFeed | itm/src/lib.rs:283-302 | without a sync pattern in the stream, `get_frame` is the packet layer alone |
| ItmLemmas.TokensResume | itm/src/lib.rs:258-273 | the packet layer resumes a partial packet like `get_frame` |
| ItmLemmas.NoPattern | itm/src/lib.rs:14-17 | a byte that is neither 7F nor 80 cannot complete a sync pattern |
| ItmLemmas.PlainBytes | itm/src/lib.rs:14-17 | bytes without 7F and 80 contain no sync pattern |
| ItmLemmas.OneByte | itm/src/lib.rs:303-316 | without a sync pattern a byte is handled by the current state |
| ItmLemmas.OverflowPacket | itm/src/lib.rs:947-956 | 0x70 in Idle emits Overflow with the incremented count and stays Idle |
| ItmLemmas.OverflowMove | itm/src/lib.rs:947-956 | the same at the packet layer |
| ItmLemmas.IgnoredByte | itm/src/lib.rs:337 | 0x00 in Idle changes nothing but the byte count and shift register |
| ItmLemmas.NoiseByte | itm/src/lib.rs:344-357 | an unmatched header only adds one to the noise counter |
| ItmLemmas.ShortTimestamp | itm/src/lib.rs:549-557 | headers 0x10-0x60 give Timestamp(Sync, header bits 6:4) and stay Idle |
| ItmLemmas.NoiseMove | itm/src/lib.rs:344-357 | a noise byte emits nothing and keeps Idle and the page register |
| ItmLemmas.NoiseThen | itm/src/lib.rs:344-357 | a noise byte is skipped: decoding continues from Idle with the next byte |
| ItmLemmas.ShortXtn | itm/src/lib.rs:480-488 | a one-byte extension header `0???_1000` emits Xtn(false, 0, bits 6:4) and leaves the decoder Idle on the same page |
| ItmLemmas.ShortXtnMove | itm/src/lib.rs:480-488 | the same at the packet layer |
| ItmLemmas.PageSelect | itm/src/lib.rs:475-478 | a one-byte extension with bit 2 set sets the page register to 32*((tok>>4)&7) and emits nothing |
| ItmLemmas.PageMove | itm/src/lib.rs:475-478 | the same at the packet layer |
| ItmLemmas.LtsLast | itm/src/lib.rs:520-540 | a final LTS byte emits the timestamp with its group and the header's type |
| ItmLemmas.LtsMore | itm/src/lib.rs:520-542 | a continued LTS byte adds its group and emits nothing |
| ItmLemmas.LtsRun | itm/src/lib.rs:514-543 | a continued LTS payload accumulates its groups and emits one timestamp on its last byte |
| ItmLemmas.AccumulateGroups | itm/src/lib.rs:520-523 | the byte-by-byte accumulation equals the OR of the 7-bit groups at offsets 0, 7, 14, ... (up to the limit) |
| ItmLemmas.AccumulateBound | itm/src/lib.rs:587-591 | at most 4 groups stay below 2^28, at most 7 below 2^49 |
| ItmLemmas.PayloadGroups | itm/src/lib.rs:520-523 | from zero the accumulated timestamp is the groups alone, below 2^28 for LTS |
| ItmLemmas.LtsTokens | itm/src/lib.rs:514-569 | header 0xC0-0xF0 plus a continued payload gives Timestamp(type from header bits 5:4, groups of the first 4 bytes) |
| ItmLemmas.LtsPacket | itm/src/lib.rs:514-569 | the same through `get_frame` |
| ItmLemmas.Gts2Last | itm/src/lib.rs:587-602 | a final GTS2 byte stores and emits the timestamp |
| ItmLemmas.Gts2More | itm/src/lib.rs:587-604 | a continued GTS2 byte adds its group |
| ItmLemmas.Gts2Run | itm/src/lib.rs:581-605 | a continued GTS2 payload accumulates its groups and stores the result in gtimestamp |
| ItmLemmas.Gts2Tokens | itm/src/lib.rs:581-612 | 0xB4 plus a continued payload gives Globaltimestamp(false, first 7 groups) starting from 0, stored in gtimestamp |
| ItmLemmas.Gts2Packet | itm/src/lib.rs:581-612 | the same through `get_frame` |
| ItmLemmas.InstrumentationLast | itm/src/lib.rs:396-408 | the last instrumentation byte emits the frame with port + page register |
| ItmLemmas.InstrumentationMore | itm/src/lib.rs:396-411 | an earlier byte is stored and nothing is emitted |
| ItmLemmas.InstrumentationRun | itm/src/lib.rs:390-412 | after exactly the announced bytes the frame carries them packed little-endian |
| ItmLemmas.PackBytes | itm/src/lib.rs:396-399 | byte k of the packed word is payload byte k, and the bytes beyond the payload are 0 |
| ItmLemmas.BytesOfWord | itm/src/lib.rs:396-399 | storing four bytes in turn gives the little-endian word |
| ItmLemmas.PortNoWrap | itm/src/lib.rs:404 | port + page register cannot overflow: the sum is exact and its bit fields are port and page |
| ItmLemmas.InstrumentationHeader | itm/src/lib.rs:414-428 | the header selects port bits 7:3, size 1, 2 or 4, and adds one to instrupkts |
| ItmLemmas.InstrumentationTokens | itm/src/lib.rs:390-429 | a header and exactly its announced payload give Instrumentation(port + page, packed payload, size) |
| ItmLemmas.InstrumentationPacket | itm/src/lib.rs:390-429 | the same through `get_frame` |
| ItmLemmas.PagedInstrumentation | itm/src/lib.rs:475-478 | a page select followed by an instrumentation packet gives port + 32*page |
| ItmLemmas.PagedPacket | itm/src/lib.rs:402-406 | the same through `get_frame` |
| ItmLemmas.XtnLast | itm/src/lib.rs:448-466 | a final extension byte emits Xtn with source, count and bits |
| ItmLemmas.XtnMore | itm/src/lib.rs:448-468 | a continued extension byte ORs in its bits |
| ItmLemmas.XtnRun | itm/src/lib.rs:442-470 | a continued extension payload accumulates its bits and emits on its last byte |
| ItmLemmas.XtnAccumulateGroups | itm/src/lib.rs:448-456 | the accumulation equals the OR of 7-bit groups at offsets 3, 10, 17, 24 and the full fifth byte at 31 |
| ItmLemmas.XtnLenMin | itm/src/lib.rs:448-456 | `len` is the number of payload bytes, capped at 5 |
| ItmLemmas.XtnTokens | itm/src/lib.rs:442-502 | a multi-byte extension header plus a continued payload gives Xtn(bit 2, payload count, header bits 6:4 OR the groups) |
| ItmLemmas.XtnPacket | itm/src/lib.rs:442-502 | the same through `get_frame` |
| ItmLemmas.Gts1Last | itm/src/lib.rs:630-648 | a final GTS1 byte overwrites its field and stores and emits the timestamp |
| ItmLemmas.Gts1More | itm/src/lib.rs:630-651 | a continued GTS1 byte overwrites its field |
| ItmLemmas.Gts1Run | itm/src/lib.rs:624-652 | a continued GTS1 payload overwrites its fields in turn and stores the result |
| ItmLemmas.Gts1Tail | itm/src/lib.rs:630 | bytes after the fourth change nothing |
| ItmLemmas.Gts1Reference | itm/src/lib.rs:630-639 | the byte-by-byte update equals the previous timestamp with exactly the carried fields replaced (7 bits each for bytes 1-3, 5 bits for byte 4); the wrap flag is bit 6 of byte 4 |
| ItmLemmas.Gts1Tokens | itm/src/lib.rs:624-666 | 0x94 plus a continued payload gives Globaltimestamp(wrap, previous timestamp with the carried fields replaced), stored in gtimestamp |
| ItmLemmas.Gts1Header | itm/src/lib.rs:656-665 | the GTS1 header starts from the stored global timestamp |
| ItmLemmas.Gts1Packet | itm/src/lib.rs:624-666 | the same through `get_frame` |
| ItmLemmas.Gts1KeepsHighBits | itm/src/lib.rs:630-639 | the bits above the carried fields survive |
| ItmLemmas.OneByteHeader | itm/src/lib.rs:342-352 | headers 05, 1D and 15 enter the one-payload-byte states |
| ItmLemmas.OneBytePayload | itm/src/lib.rs:890-932 | the payload byte completes the packet |
| ItmLemmas.OneByteTokens | itm/src/lib.rs:849-855 | a one-byte hardware packet is two bytes long |
| ItmLemmas.EventTokens | itm/src/lib.rs:890-914 | 05 b gives EventC with the six wrap flags from bits 0-5 of b |
| ItmLemmas.PMUOverflowTokens | itm/src/lib.rs:922-939 | 1D b gives PMUOverflow(b) |
| ItmLemmas.PCSleepTokens | itm/src/lib.rs:849-855 | 15 b gives PCSleep(b == 0xFF) |
| ItmLemmas.ExceptionNumber | itm/src/lib.rs:687-691 | the exception number is byte 1 plus 256 times bit 0 of byte 2 |
| ItmLemmas.ExceptionTokens | itm/src/lib.rs:678-722 | 0E b0 b1 gives Exception(b0 + 256*(b1&1), event from bits 5:4 of b1) |
| ItmLemmas.ExceptionPacket | itm/src/lib.rs:678-722 | the same through `get_frame` |
| ItmLemmas.DataTraceLast | itm/src/lib.rs:751-798 | the last data trace byte emits the frame of its kind |
| ItmLemmas.DataTraceMore | itm/src/lib.rs:751-801 | an earlier byte is stored |
| ItmLemmas.DataTraceRun | itm/src/lib.rs:745-802 | after exactly the announced bytes the frame carries them packed little-endian |
| ItmLemmas.DataTraceHeader | itm/src/lib.rs:807-830 | the header selects index bits 5:4, size, wnr bit 3 and the kind |
| ItmLemmas.DataTraceTokens | itm/src/lib.rs:733-831 | a header and its announced payload give the frame of its kind with index, packed address and size |
| ItmLemmas.DataTraceKinds | itm/src/lib.rs:817-821 | a match header has size 1; value and address kinds are told apart by header bits |
| ItmLemmas.DataTracePacket | itm/src/lib.rs:733-831 | the same through `get_frame` |
| ItmLemmas.PCSampleLast | itm/src/lib.rs:857-863 | the last PC sample byte emits PCSample |
| ItmLemmas.PCSampleMore | itm/src/lib.rs:857-865 | an earlier byte is stored |
| ItmLemmas.PCSampleRun | itm/src/lib.rs:843-868 | after the announced bytes the sample carries them packed little-endian |
| ItmLemmas.PCSampleTokens | itm/src/lib.rs:843-882 | 17 plus four bytes gives PCSample(the little-endian word) |
| ItmVectors.ZerosVector | itm/src/test_lib/mod.rs:4-11 | five zeros on a new decoder return ShortData, still Unsynced |
| ItmVectors.SyncVector | itm/src/test_lib/mod.rs:4-11 | 00 00 00 00 00 80 on a new decoder gives Sync(1) |
| ItmVectors.NoSyncVector | itm/src/test_lib/mod.rs:13-20 | 00 00 00 00 20 80 gives no frame (ShortData) |
| ItmVectors.TpiuSyncVector | itm/src/test_lib/mod.rs:22-29 | 00 FF FF FF 7F 80 gives TPIUSync(1) |
| ItmVectors.OverflowVector | itm/src/test_lib/mod.rs:31-41 | after sync, 70 gives Overflow(1) |
| ItmVectors.LtsVector2 | itm/src/test_lib/mod.rs:43-59 | 30 gives Timestamp(Sync, 3) |
| ItmVectors.LtsTestAsWritten | itm/src/test_lib/mod.rs:61-89 | the test's bytes A0 85 82 give DataTraceValue(0, 0x82, 1, false), not a timestamp |
| ItmVectors.LtsVector1 | itm/src/test_lib/mod.rs:61-89 | with header D0, D0 85 82 01 gives Timestamp(TSDelayed, 0x4105) |
| ItmVectors.LtsVector1Overlong | itm/src/test_lib/mod.rs:61-89 | D0 85 85 85 85 85 00 keeps only 4 groups: Timestamp(TSDelayed, 0xA14285) |
| ItmVectors.LtsValues | itm/src/test_lib/mod.rs:61-89 | the group values of the two LTS payloads |
| ItmVectors.Gts1Vector1 | itm/src/test_lib/mod.rs:91-141 | 94 42 from timestamp 0 gives 0x42 |
| ItmVectors.Gts1Vector2 | itm/src/test_lib/mod.rs:91-141 | 94 F3 92 D0 4F gives (true, 0x1F40973) |
| ItmVectors.Gts1Vector3 | itm/src/test_lib/mod.rs:91-141 | 94 F3 92 D0 FF 22 gives (true, 0x3F40973) |
| ItmVectors.Gts1Vector4 | itm/src/test_lib/mod.rs:91-141 | 94 FF 7F gives (false, 0x3F43FFF) |
| ItmVectors.Gts1Values | itm/src/test_lib/mod.rs:91-141 | the field-replacement values of the four GTS1 payloads |
| ItmVectors.Gts2Vector1 | itm/src/test_lib/mod.rs:143-185 | five payload bytes give 0x10608084 |
| ItmVectors.Gts2Vector2 | itm/src/test_lib/mod.rs:143-185 | six give 0x810608084 |
| ItmVectors.Gts2Vector3 | itm/src/test_lib/mod.rs:143-185 | seven give 0x1C0810608084 |
| ItmVectors.Gts2Value1 | itm/src/test_lib/mod.rs:143-160 | the group value of the first payload |
| ItmVectors.Gts2Value2 | itm/src/test_lib/mod.rs:161-172 | the group value of the second payload |
| ItmVectors.Gts2Value3 | itm/src/test_lib/mod.rs:173-185 | the group value of the third payload |
| ItmVectors.SwSourceVector1 | itm/src/test_lib/mod.rs:187-229 | 01 22 gives Instrumentation(0, 0x22, 1) |
| ItmVectors.SwSourceVector2 | itm/src/test_lib/mod.rs:187-229 | 93 11 22 33 44 gives Instrumentation(18, 0x44332211, 4) |
| ItmVectors.SwSourceVector3 | itm/src/test_lib/mod.rs:187-229 | F2 99 12 gives Instrumentation(30, 0x1299, 2) |
| ItmVectors.HwSourceVector1 | itm/src/test_lib/mod.rs:231-273 | 05 22 gives EventC with exccnt and postcnt wrapped |
| ItmVectors.HwSourceVector2 | itm/src/test_lib/mod.rs:231-273 | 97 11 22 33 44 gives DataTraceValue(1, 0x44332211, 4, false) |
| ItmVectors.HwSourceVector3 | itm/src/test_lib/mod.rs:231-273 | F6 99 12: F6 is noise, then Instrumentation(19, 0x12, 1) |
| ItmVectors.SwPageVector1 | itm/src/test_lib/mod.rs:275-308 | 1C 01 22 gives Instrumentation(32, 0x22, 1) |
| ItmVectors.SwPageVector2 | itm/src/test_lib/mod.rs:275-308 | 7C 93 11 22 33 44 gives Instrumentation(242, 0x44332211, 4) |
| ItmVectors.XtnVector1 | itm/src/test_lib/mod.rs:310-355 | 88 22 gives Xtn(false, 1, 0x110) |
| ItmVectors.XtnVector2 | itm/src/test_lib/mod.rs:310-355 | A8 93 82 23 gives Xtn(false, 3, 0x46089A) |
| ItmVectors.XtnVector3 | itm/src/test_lib/mod.rs:310-355 | AC 93 82 23 gives Xtn(true, 3, 0x46089A) |
| ItmVectors.XtnValues | itm/src/test_lib/mod.rs:310-355 | the group values and lengths of the extension payloads |

## Left out

- Debug output: the `print!`/`println!` calls in `ITMDecoder::token` and the `Display` impls.
  These print only and change no state.
- Counter width: every statistic is a natural number, so u64 wrap-around of the counters is not modelled.
- Vector allocation: `Vec` growth, reallocation and `with_capacity` are not modelled. The COBS output vector is
  `Cobs.ByteVec`, a sequence with a fixed capacity. The capacity matters only to `get_byte`, which clears a full
  vector.
- Boxed states: each boxed packet state becomes a constructor of the `PState` datatype. The trait objects
  `State` and `StateMatch` become a `match` on that datatype.
- Cobs.Cobs.CobsEncode: requires an empty output vector. The code puts its first placeholder at `e.len()` but
  patches `e[0]`, so on a non-empty vector it would overwrite the caller's first byte.
- Cobs.RoundTrip: stated for the default sentinel 0 only. With another sentinel, a 0x00 run length makes
  `rxc - 1` wrap to 255, which the model follows (`WrappingDec`), and a run length equal to the sentinel ends the
  packet early. Neither is a round trip.
- Cobs.EncodedShape: the "no other sentinel" half is stated for sentinel 0 only, for the same reason.
- Itm: the `context_idlen` and `timestamp` fields are kept and set but never read by the decoder. They are
  carried along with no property.
- Itm: the repository's ITM tests use frame names the decoder no longer has (`Newsync`, `Sw`, `Hw`) and omit
  the `len` fields. `ItmVectors` states each test's bytes with the frames the decoder produces.
- ItmVectors.HwSourceVector3: the hardware-source test expects a hardware frame from F6 99 12. The decoder
  counts F6 as noise and decodes 99 12 as an instrumentation packet, and that is what is stated.
- The collector, the CLI applications and the output formatting are not part of this model. The repository
  shows no TPIU deframer and no timestamp correlator; the only TPIU handling is the sync detection inside the
  ITM decoder, which is modelled.

## Findings

| source | as written | input that shows it | evidently intended | confidence | as-written member | corrected member |
|---|---|---|---|---|---|---|
| cobs/src/lib.rs:405-407 | `max_possible_enc_len` is 1 + n + n/256 + 1, but a run holds at most 254 data bytes, as the constant at line 78 says | 255 bytes of 0x01 encode into 258 bytes; the function gives 257 | 1 + n + n/254 + 1, a true upper bound | not executed | Cobs.MaxPossibleEncLenTooSmall | Cobs.EncodedShape |
| cobs/src/lib.rs:364-366 | a sentinel inside a run sends the decoder to Flushing, although that sentinel already ended the short packet; Flushing then discards the whole next packet up to its final sentinel, against the promise of lines 4-9 to resynchronise at the start of the next packet | from Rxing with two bytes of the run still due and the default sentinel, 00 03 01 02 00 gives ShortData with an empty output, and the packet 01 02 is lost and counted bad | leave the decoder Idle after the error, so the next packet decodes | not executed | Cobs.ShortPacketLosesNext | Cobs.ResyncAfterShortPacket |
| itm/src/test_lib/mod.rs:61-89 | the local timestamp test feeds header 0xA0, which the Idle dispatch (itm/src/lib.rs:340-341) does not route to the timestamp decoder | A0 85 82 decodes to DataTraceValue(0, 0x82, 1, false), not a timestamp | header 0xD0 (type 1, `11??_0000`), which gives Timestamp(TSDelayed, 0x4105) | not executed | ItmVectors.LtsTestAsWritten | ItmVectors.LtsVector1 |
