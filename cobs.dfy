/**
 * Consistent Overhead Byte Stuffing (Cheshire and Baker, IEEE/ACM Transactions on Networking 7(2), 1999):
 * the layer that cuts a byte stream into packets.
 *
 * An encoded packet is a chain of runs, each a run-length byte r followed by r - 1 data bytes, and
 * ends with the sentinel. A run shorter than 255 stands for its data followed by one sentinel-valued
 * byte (implicit, not on the wire), except the last run; a run of length 255 carries 254 data bytes
 * and nothing implicit.
 *
 * The decoder is a three-state machine (Idle, Rxing, Flushing) that fills a caller-supplied vector
 * of bounded capacity and keeps five statistics counters. The encoder builds its output in place,
 * pushing a placeholder for each run-length byte and patching it once the run ends.
 */
module Cobs {
  import opened Results
  import opened Bytes

  /** Default value of the sentinel (end of packet) byte. */
  const DEFAULT_SENTINEL: byte := 0
  /** Longest unencoded packet the encoder accepts. */
  const MAX_PACKET_LEN: nat := 8192
  /** A start run-length byte, at most one extra run-length byte per 254 data bytes, and the sentinel. */
  const MAX_ENC_PACKET_LEN: nat := 1 + MAX_PACKET_LEN + MAX_PACKET_LEN / 254 + 1

  datatype DecoderState =
    | Idle      // waiting for a packet to start: the first non-sentinel byte is a run length
    | Rxing     // receiving the runs of a packet
    | Flushing  // discarding bytes until a sentinel marks the start of the next packet

  /** What the state machine asks `get_byte` to do with a byte. */
  datatype TokenResult = Error | Flushing | Store | NoAction | Complete

  datatype CobsError = Timeout | Ongoing | Overlong | ShortData | ZeroLength | Busy

  /** A snapshot of a decoder: its registers and its five statistics. */
  datatype Dec = Dec(
    state: DecoderState,
    sentinel: byte,
    rxc: byte,        // bytes still to come in the current run, the next run-length byte included
    maxcount: bool,   // the current run has length 255 and so ends without an implicit sentinel
    inbytes: nat,     // bytes received
    goodbytes: nat,   // bytes delivered in complete packets
    badbytes: nat,    // bytes abandoned
    packets: nat,     // packets delivered
    toolong: nat)     // packets abandoned because they did not fit the output vector

  /** u8 decrement as a release build performs it: 0 wraps to 255. */
  function WrappingDec(x: byte): (r: byte)
    ensures (r + 1) % 0x100 == x
  {
    if x == 0 then 0xFF else x - 1
  }

  /** The result of one byte through the state machine: new registers, the value to store, the action. */
  datatype Token = Token(dec: Dec, val: byte, action: TokenResult)

  /** The state machine of `process_token`: what one byte does to the registers. Only the state,
      the run counter and the 255-run flag change. A sentinel ends the packet at the end of a run
      and is an error inside one; Idle and Flushing never store a byte. */
  function TokenStep(d: Dec, tok: byte): (t: Token)
    ensures t.dec.(state := d.state, rxc := d.rxc, maxcount := d.maxcount) == d
    ensures t.action == Complete <==> d.state == Rxing && d.rxc == 1 && tok == d.sentinel
    ensures t.action == Error <==> d.state == Rxing && d.rxc != 1 && tok == d.sentinel
    ensures t.action == TokenResult.Flushing <==> d.state == DecoderState.Flushing && tok != d.sentinel
    ensures t.action == Store ==>
      d.state == Rxing && tok != d.sentinel && t.val == (if d.rxc == 1 then d.sentinel else tok)
    ensures t.action == Complete ==> t.dec.state == Idle
    ensures t.action == Error ==> t.dec.state == DecoderState.Flushing
  {
    match d.state
    case Idle =>
      if tok != d.sentinel then Token(d.(rxc := tok, maxcount := tok == 0xFF, state := Rxing), 0, NoAction)
      else Token(d, 0, NoAction)
    case Rxing =>
      var rxc := WrappingDec(d.rxc);
      if rxc == 0 then
        if d.sentinel == tok then Token(d.(rxc := rxc, state := Idle), tok, Complete)
        else Token(d.(rxc := tok, maxcount := tok == 0xFF), d.sentinel, if !d.maxcount then Store else NoAction)
      else if d.sentinel == tok then Token(d.(rxc := rxc, state := DecoderState.Flushing), tok, Error)
      else Token(d.(rxc := rxc), tok, Store)
    case Flushing =>
      if d.sentinel != tok then Token(d, tok, TokenResult.Flushing)
      else Token(d.(state := Idle), d.sentinel, NoAction)
  }

  /** The decoder, the output vector and the answer after one call of `get_byte`. */
  datatype Step = Step(dec: Dec, op: seq<byte>, result: Result<(), CobsError>)

  /** What `get_byte` does with byte `c`, given the output vector `op` of capacity `cap`. */
  function GetByteStep(d: Dec, op: seq<byte>, cap: nat, c: byte): (s: Step)
    requires |op| <= cap
    ensures |s.op| <= cap
    ensures s.dec.inbytes == d.inbytes + 1
    ensures s.dec.sentinel == d.sentinel
    ensures s.result == Ok(()) || s.result == Err(Ongoing)
    ensures s.result.Ok? <==> TokenStep(d, c).action == Complete
    ensures s.result.Ok? ==> s.op == op && s.dec.packets == d.packets + 1 && s.dec.goodbytes == d.goodbytes + |op|
    ensures !s.result.Ok? ==> s.dec.packets == d.packets && s.dec.goodbytes == d.goodbytes
  {
    var t := TokenStep(d.(inbytes := d.inbytes + 1), c);
    var d1 := t.dec;
    match t.action
    case Error => Step(d1.(badbytes := d1.badbytes + |op|), [], Err(Ongoing))
    case Flushing => Step(d1.(badbytes := d1.badbytes + 1), op, Err(Ongoing))
    case NoAction => Step(d1, op, Err(Ongoing))
    case Store =>
      if |op| < cap then Step(d1, op + [t.val], Err(Ongoing))
      else Step(d1.(badbytes := d1.badbytes + |op|, toolong := d1.toolong + 1, state := DecoderState.Flushing),
                [], Err(Ongoing))
    case Complete => Step(d1.(packets := d1.packets + 1, goodbytes := d1.goodbytes + |op|), op, Ok(()))
  }

  /** The decoder, the output vector, the answer and the number of bytes taken, after `get_frame`. */
  datatype Feed = Feed(dec: Dec, op: seq<byte>, result: Result<(), CobsError>, used: nat)

  /** What `get_frame` does with the bytes `bytes` the iterator would yield: feed them one by one
      until a packet completes or the bytes run out. */
  function FeedFrame(d: Dec, op: seq<byte>, cap: nat, bytes: seq<byte>): (f: Feed)
    requires |op| <= cap
    ensures |f.op| <= cap && f.used <= |bytes|
    ensures f.dec.sentinel == d.sentinel
    ensures f.result == Ok(()) || f.result == Err(ShortData)
    ensures f.result == Err(ShortData) ==> f.used == |bytes|
    ensures f.result.Ok? ==> 1 <= f.used
    ensures f.dec.inbytes == d.inbytes + f.used
    ensures f.dec.packets == d.packets + (if f.result.Ok? then 1 else 0)
    decreases |bytes|
  {
    if bytes == [] then Feed(d, op, Err(ShortData), 0)
    else
      var s := GetByteStep(d, op, cap, bytes[0]);
      if s.result.Ok? then Feed(s.dec, s.op, Ok(()), 1)
      else if s.result.error != Ongoing then Feed(s.dec, s.op, s.result, 1)
      else
        var f := FeedFrame(s.dec, s.op, cap, bytes[1..]);
        f.(used := f.used + 1)
  }

  /** `max_possible_enc_len` as written: it divides by 256 where its documentation divides by 254. */
  function MaxPossibleEncLen(ipLen: nat): (r: nat)
    ensures r >= ipLen + 2
  {
    1 + ipLen + ipLen / 256 + 1
  }

  /** The documented worst case: a start run length, one more per 254 bytes, and the sentinel. */
  function MaxEncLen(ipLen: nat): (r: nat)
    ensures r >= MaxPossibleEncLen(ipLen)
  {
    1 + ipLen + ipLen / 254 + 1
  }

  /** Both bounds reject exactly the inputs longer than MAX_PACKET_LEN, so the encoder's
      overlong check does not depend on which one it uses. */
  lemma OverlongCheckAgrees(n: nat)
    ensures MaxPossibleEncLen(n) > MAX_ENC_PACKET_LEN <==> n > MAX_PACKET_LEN
    ensures MaxEncLen(n) > MAX_ENC_PACKET_LEN <==> n > MAX_PACKET_LEN
  {
    if n > MAX_PACKET_LEN {
      assert n / 256 >= 32;
      assert n / 254 >= 32;
    } else {
      assert n / 256 <= 32;
      assert n / 254 <= 32;
    }
  }

  // ---------------------------------------------------------------------------------------------
  // The encoder, without back-patching: a reference for `cobs_encode`.

  /** Encoder progress: the finished runs, and the data bytes of the run still open. */
  datatype Enc = Enc(done: seq<byte>, open: seq<byte>)

  /** Add one input byte: first close a full run (254 data bytes) with length 255, then either
      close the open run because `x` is the sentinel, or add `x` to it. */
  function EncStep(e: Enc, x: byte, s: byte): (r: Enc)
    requires |e.open| <= 254
    ensures |r.open| <= 254
  {
    var e1 := if |e.open| == 254 then Enc(e.done + [0xFF] + e.open, []) else e;
    if x == s then Enc(e1.done + [|e1.open| + 1] + e1.open, [])
    else Enc(e1.done, e1.open + [x])
  }

  /** Encoder progress after the input bytes `ip`. */
  function EncFold(ip: seq<byte>, s: byte): (e: Enc)
    ensures |e.open| <= 254 && |e.open| <= |ip|
    ensures forall k :: 0 <= k < |e.open| ==> e.open[k] != s
    ensures s == 0 ==> forall k :: 0 <= k < |e.done| ==> e.done[k] != 0
    ensures |e.done| + |e.open| >= |ip|
    ensures 254 * (|e.done| + |e.open| - |ip|) + |e.open| <= |ip|
  {
    if ip == [] then Enc([], [])
    else
      EncStep(EncFold(ip[..|ip| - 1], s), ip[|ip| - 1], s)
  }

  /** One more input byte is one more encoder step. */
  lemma EncFoldNext(ip: seq<byte>, k: nat, s: byte)
    requires k < |ip|
    ensures EncFold(ip[..k + 1], s) == EncStep(EncFold(ip[..k], s), ip[k], s)
  {
    assert ip[..k + 1][..k] == ip[..k];
  }

  /** The open run holds the last input bytes. */
  lemma {:induction false} EncFoldOpenSuffix(ip: seq<byte>, s: byte)
    ensures ip[..|ip| - |EncFold(ip, s).open|] + EncFold(ip, s).open == ip
  {
    if ip != [] {
      var ip0 := ip[..|ip| - 1];
      var x := ip[|ip| - 1];
      EncFoldOpenSuffix(ip0, s);
      var prev := EncFold(ip0, s);
      var e := EncFold(ip, s);
      assert ip0 + [x] == ip;
      if x != s && |prev.open| < 254 {
        assert e.open == prev.open + [x];
        assert ip[..|ip| - |e.open|] == ip0[..|ip0| - |prev.open|];
      }
    }
  }

  /** Appending one input byte is one more encoder step. */
  lemma EncFoldSnoc(ip: seq<byte>, x: byte, s: byte)
    ensures EncFold(ip + [x], s) == EncStep(EncFold(ip, s), x, s)
  {
    assert (ip + [x])[..|ip|] == ip;
  }

  /** Overwriting the placeholder of the open run with its length. */
  lemma Patch(done: seq<byte>, open: seq<byte>, p: byte, v: byte)
    ensures (done + [p] + open)[|done| := v] == done + [v] + open
  {
  }

  /** The encoding of `ip`: the finished runs, the last run with its length, and the sentinel. */
  function Encoded(ip: seq<byte>, s: byte): (r: seq<byte>)
    ensures |r| >= |ip| + 2 && r[|r| - 1] == s
  {
    var e := EncFold(ip, s);
    e.done + [|e.open| + 1] + e.open + [s]
  }

  /** The parts of an encoding, for a loop that has consumed all of `ip`. */
  lemma EncodedParts(ip: seq<byte>, s: byte)
    ensures var e := EncFold(ip[..|ip|], s);
      Encoded(ip, s) == e.done + [|e.open| + 1] + e.open + [s]
  {
    assert ip[..|ip|] == ip;
  }

  /** The encoding ends in the sentinel and is at most 2 + n + n/254 bytes long; with the default
      sentinel no other byte of it is a sentinel, so every run-length byte is in 1..255. */
  lemma {:induction false} EncodedShape(ip: seq<byte>, s: byte)
    ensures var r := Encoded(ip, s);
      |r| <= MaxEncLen(|ip|) && r[|r| - 1] == s &&
      (s == 0 ==> forall k :: 0 <= k < |r| - 1 ==> r[k] != 0)
  {
    var e := EncFold(ip, s);
    var r := Encoded(ip, s);
    var extra := |e.done| + |e.open| - |ip|;
    assert 254 * extra <= |ip|;
    assert extra <= |ip| / 254;
    if s == 0 {
      forall k | 0 <= k < |r| - 1 ensures r[k] != 0 {
        if k < |e.done| {
          assert r[k] == e.done[k];
        } else if k > |e.done| {
          assert r[k] == e.open[k - |e.done| - 1];
        }
      }
    }
  }

  /** Encodings of accepted inputs fit in MAX_ENC_PACKET_LEN. */
  lemma EncodedFits(ip: seq<byte>, s: byte)
    requires |ip| <= MAX_PACKET_LEN
    ensures |Encoded(ip, s)| <= MAX_ENC_PACKET_LEN
  {
    EncodedShape(ip, s);
    assert |ip| / 254 <= MAX_PACKET_LEN / 254;
  }

  /** An input free of the sentinel grows by exactly one run-length byte per 254 data bytes
      started: n >= 1 such bytes encode into n + (n - 1) / 254 + 2 bytes. */
  lemma EncodedLengthWithoutSentinel(ip: seq<byte>, s: byte)
    requires |ip| >= 1 && forall k :: 0 <= k < |ip| ==> ip[k] != s
    ensures |EncFold(ip, s).open| == (|ip| - 1) % 254 + 1
    ensures |Encoded(ip, s)| == |ip| + (|ip| - 1) / 254 + 2
  {
    EncFoldLengths(ip, s);
  }

  /** Without sentinels the runs are full (254 data bytes) but the last: the open run holds the
      remaining 1..254 bytes, and each full run added one run-length byte. */
  lemma {:induction false} EncFoldLengths(ip: seq<byte>, s: byte)
    requires |ip| >= 1 && forall k :: 0 <= k < |ip| ==> ip[k] != s
    ensures |EncFold(ip, s).open| == (|ip| - 1) % 254 + 1
    ensures |EncFold(ip, s).done| + |EncFold(ip, s).open| == |ip| + (|ip| - 1) / 254
  {
    var ip0 := ip[..|ip| - 1];
    var x := ip[|ip| - 1];
    var e0 := EncFold(ip0, s);
    assert EncFold(ip, s) == EncStep(e0, x, s);
    if |ip0| == 0 {
      assert e0 == Enc([], []);
    } else {
      EncFoldLengths(ip0, s);
      StepLengths(e0, x, s, |ip0|, |ip|);
    }
  }

  /** One more non-sentinel byte after `n` of them keeps the run-length count of EncFoldLengths. */
  lemma StepLengths(e0: Enc, x: byte, s: byte, n: nat, m: nat)
    requires x != s && n >= 1 && m == n + 1
    requires |e0.open| == (n - 1) % 254 + 1
    requires |e0.done| + |e0.open| == n + (n - 1) / 254
    ensures |EncStep(e0, x, s).open| == (m - 1) % 254 + 1
    ensures |EncStep(e0, x, s).done| + |EncStep(e0, x, s).open| == m + (m - 1) / 254
  {
    RunCount(n - 1);
    var e := EncStep(e0, x, s);
    if |e0.open| == 254 {
      assert |e.open| == 1 && |e.done| == |e0.done| + 255;
    } else {
      assert |e.open| == |e0.open| + 1 && e.done == e0.done;
    }
  }

  /** Counting one more byte in runs of 254. */
  lemma RunCount(m: nat)
    ensures (m + 1) % 254 == if m % 254 == 253 then 0 else m % 254 + 1
    ensures (m + 1) / 254 == if m % 254 == 253 then m / 254 + 1 else m / 254
  {
  }

  /** `max_possible_enc_len` under-estimates: 255 bytes without a zero encode into 258 bytes,
      one more than its 257. */
  lemma MaxPossibleEncLenTooSmall()
    ensures var ip := seq(255, k => 1 as byte);
      |Encoded(ip, 0)| == 258 && MaxPossibleEncLen(|ip|) == 257
  {
    var ip := seq(255, k => 1 as byte);
    EncodedLengthWithoutSentinel(ip, 0);
  }

  /** The example of the documentation: 11 22 33 44 encodes as 05 11 22 33 44 00. */
  lemma EncodeExample()
    ensures Encoded([0x11, 0x22, 0x33, 0x44], 0) == [0x05, 0x11, 0x22, 0x33, 0x44, 0x00]
  {
    var a: seq<byte> := [0x11];
    var b: seq<byte> := a + [0x22];
    var c: seq<byte> := b + [0x33];
    var ip: seq<byte> := c + [0x44];
    EncFoldSnoc([], 0x11, 0);
    assert [] + a == a;
    EncFoldSnoc(a, 0x22, 0);
    EncFoldSnoc(b, 0x33, 0);
    EncFoldSnoc(c, 0x44, 0);
    assert EncFold(ip, 0) == Enc([], ip);
    assert ip == [0x11, 0x22, 0x33, 0x44];
  }

  // ---------------------------------------------------------------------------------------------
  // Decoding: concatenation, runs, and the round trip.

  /** The counters that decoding a clean stream leaves alone. */
  predicate Quiet(d0: Dec, d1: Dec)
  {
    d1.sentinel == d0.sentinel && d1.goodbytes == d0.goodbytes && d1.badbytes == d0.badbytes &&
    d1.packets == d0.packets && d1.toolong == d0.toolong
  }

  /** Bytes that run out without completing a packet leave the packet pending: a later call with
      the following bytes carries on exactly as one call with all the bytes would have. */
  lemma {:induction false} FeedFrameAppend(d: Dec, op: seq<byte>, cap: nat, a: seq<byte>, b: seq<byte>)
    requires |op| <= cap
    decreases |a|
    requires FeedFrame(d, op, cap, a).result == Err(ShortData)
    ensures var fa := FeedFrame(d, op, cap, a);
      var fb := FeedFrame(fa.dec, fa.op, cap, b);
      FeedFrame(d, op, cap, a + b) == fb.(used := fb.used + |a|)
  {
    if a == [] {
      assert a + b == b;
    } else {
      var s := GetByteStep(d, op, cap, a[0]);
      assert (a + b)[0] == a[0];
      assert (a + b)[1..] == a[1..] + b;
      FeedFrameAppend(s.dec, s.op, cap, a[1..], b);
    }
  }

  /** Inside a run with r - 1 data bytes to come, those bytes are appended to the output. */
  lemma {:induction false} FeedRunData(d: Dec, op: seq<byte>, cap: nat, data: seq<byte>)
    requires d.state == Rxing && d.sentinel == 0 && d.rxc == |data| + 1
    requires forall k :: 0 <= k < |data| ==> data[k] != 0
    requires |op| + |data| <= cap
    decreases |data|
    ensures FeedFrame(d, op, cap, data) ==
      Feed(d.(rxc := 1, inbytes := d.inbytes + |data|), op + data, Err(ShortData), |data|)
  {
    if data == [] {
      assert op + data == op;
    } else {
      var s := GetByteStep(d, op, cap, data[0]);
      assert s == Step(d.(rxc := |data|, inbytes := d.inbytes + 1), op + [data[0]], Err(Ongoing));
      FeedRunData(s.dec, s.op, cap, data[1..]);
      assert op + [data[0]] + data[1..] == op + data;
    }
  }

  /** Between runs: Idle before the first run (nothing received yet), otherwise Rxing with only
      the next run-length byte to come. `committed` is what the runs so far stand for; the
      output holds it, less the implicit sentinel of the last run until the next run confirms it. */
  predicate AtRunBoundary(d: Dec, op: seq<byte>, committed: seq<byte>)
  {
    d.sentinel == 0 &&
    ((d.state == Idle && committed == [] && op == []) ||
     (d.state == Rxing && d.rxc == 1 && (if d.maxcount then op == committed else op + [0] == committed)))
  }

  /** One run of length c = |data| + 1 from a run boundary: the data reaches the output and the
      decoder is at the next run boundary. */
  lemma FeedRun(d: Dec, op: seq<byte>, committed: seq<byte>, cap: nat, c: byte, data: seq<byte>)
    requires AtRunBoundary(d, op, committed)
    requires c == |data| + 1
    requires forall k :: 0 <= k < |data| ==> data[k] != 0
    requires |committed| + |data| <= cap
    ensures |op| <= cap
    ensures var f := FeedFrame(d, op, cap, [c] + data);
      f.result == Err(ShortData) && f.op == committed + data && Quiet(d, f.dec) &&
      f.dec.maxcount == (c == 0xFF) && AtRunBoundary(f.dec, f.op, committed + data + (if c == 0xFF then [] else [0]))
  {
    assert |op| <= |committed|;
    var s := GetByteStep(d, op, cap, c);
    assert s.op == committed && s.dec.state == Rxing && s.dec.rxc == c && s.dec.maxcount == (c == 0xFF);
    assert Quiet(d, s.dec);
    FeedRunData(s.dec, s.op, cap, data);
    var f1 := FeedFrame(d, op, cap, [c]);
    assert [c][0] == c && [c][1..] == [];
    assert FeedFrame(s.dec, s.op, cap, []) == Feed(s.dec, s.op, Err(ShortData), 0);
    assert f1.dec == s.dec && f1.op == s.op && f1.result == Err(ShortData);
    FeedFrameAppend(d, op, cap, [c], data);
  }

  /** Feeding `done` from `d` with an empty vector ends at a run boundary with `committed`,
      having touched no counter but `inbytes`. */
  predicate Decodes(d: Dec, done: seq<byte>, committed: seq<byte>, cap: nat)
  {
    var f := FeedFrame(d, [], cap, done);
    f.result == Err(ShortData) && Quiet(d, f.dec) && AtRunBoundary(f.dec, f.op, committed)
  }

  /** Appending one run to a stream that decodes to a run boundary. */
  lemma CloseRun(d: Dec, done: seq<byte>, committed: seq<byte>, cap: nat, c: byte, data: seq<byte>)
    requires Decodes(d, done, committed, cap)
    requires c == |data| + 1
    requires forall k :: 0 <= k < |data| ==> data[k] != 0
    requires |committed| + |data| <= cap
    ensures Decodes(d, done + [c] + data, committed + data + (if c == 0xFF then [] else [0]), cap)
    ensures FeedFrame(d, [], cap, done + [c] + data).dec.maxcount == (c == 0xFF)
  {
    var f := FeedFrame(d, [], cap, done);
    FeedRun(f.dec, f.op, committed, cap, c, data);
    var g := FeedFrame(f.dec, f.op, cap, [c] + data);
    FeedFrameAppend(d, [], cap, done, [c] + data);
    assert done + ([c] + data) == done + [c] + data;
    assert FeedFrame(d, [], cap, done + [c] + data) == g.(used := g.used + |done|);
    assert Quiet(d, g.dec);
  }

  /** One encoder step keeps the finished runs decoding to the input less the open run. */
  lemma EncStepDecodes(d: Dec, e: Enc, committed: seq<byte>, x: byte, cap: nat)
    requires Decodes(d, e.done, committed, cap)
    requires |e.open| <= 254 && forall k :: 0 <= k < |e.open| ==> e.open[k] != 0
    requires |committed| + |e.open| + 1 <= cap
    ensures var e2 := EncStep(e, x, 0); var all := committed + e.open + [x];
      Decodes(d, e2.done, all[..|all| - |e2.open|], cap)
  {
    var e1 := if |e.open| == 254 then Enc(e.done + [0xFF] + e.open, []) else e;
    var committed1 := if |e.open| == 254 then committed + e.open else committed;
    assert committed1 + e1.open == committed + e.open;
    if |e.open| == 254 {
      CloseRun(d, e.done, committed, cap, 0xFF, e.open);
    }
    var e2 := EncStep(e, x, 0);
    var all := committed + e.open + [x];
    if x == 0 {
      CloseRun(d, e1.done, committed1, cap, |e1.open| + 1, e1.open);
      assert committed1 + e1.open + [0] == all;
      assert all[..|all|] == all;
    } else {
      assert e2.done == e1.done;
      assert all[..|all| - |e2.open|] == committed1;
    }
  }

  /** Decoding the finished runs of an encoding from Idle reaches a run boundary whose committed
      bytes are the input less the open run. */
  lemma {:induction false} FinishedRunsDecode(d: Dec, ip: seq<byte>, cap: nat)
    requires d.state == Idle && d.sentinel == 0 && |ip| <= cap
    ensures Decodes(d, EncFold(ip, 0).done, ip[..|ip| - |EncFold(ip, 0).open|], cap)
  {
    if ip == [] {
      assert FeedFrame(d, [], cap, []) == Feed(d, [], Err(ShortData), 0);
    } else {
      var ip0 := ip[..|ip| - 1];
      FinishedRunsDecode(d, ip0, cap);
      FinishedRunsStep(d, ip0, ip[|ip| - 1], cap);
      assert ip0 + [ip[|ip| - 1]] == ip;
    }
  }

  /** The step of FinishedRunsDecode: one more input byte. */
  lemma FinishedRunsStep(d: Dec, ip0: seq<byte>, x: byte, cap: nat)
    requires |ip0| + 1 <= cap
    requires Decodes(d, EncFold(ip0, 0).done, ip0[..|ip0| - |EncFold(ip0, 0).open|], cap)
    ensures var ip := ip0 + [x]; Decodes(d, EncFold(ip, 0).done, ip[..|ip| - |EncFold(ip, 0).open|], cap)
  {
    var ip := ip0 + [x];
    var e0 := EncFold(ip0, 0);
    var committed0 := ip0[..|ip0| - |e0.open|];
    EncFoldOpenSuffix(ip0, 0);
    var e := EncStep(e0, x, 0);
    assert ip[..|ip| - 1] == ip0;
    assert EncFold(ip, 0) == e;
    var all := committed0 + e0.open + [x];
    assert all == ip;
    EncStepDecodes(d, e0, committed0, x, cap);
  }

  /** A sentinel at a run boundary inside a packet completes it. */
  lemma FinalSentinel(d: Dec, op: seq<byte>, cap: nat)
    requires d.state == Rxing && d.rxc == 1 && d.sentinel == 0 && |op| <= cap
    ensures FeedFrame(d, op, cap, [0]) ==
      Feed(d.(rxc := 0, state := Idle, inbytes := d.inbytes + 1, packets := d.packets + 1,
              goodbytes := d.goodbytes + |op|), op, Ok(()), 1)
  {
    assert [0 as byte][0] == 0;
  }

  /** The whole encoding but its final sentinel leaves the decoder one byte short of the input. */
  lemma BodyDecodes(d: Dec, ip: seq<byte>, cap: nat)
    requires d.state == Idle && d.sentinel == 0 && |ip| <= cap
    ensures var e := EncFold(ip, 0);
      var f := FeedFrame(d, [], cap, e.done + [|e.open| + 1] + e.open);
      f.result == Err(ShortData) && f.op == ip && f.dec.state == Rxing && f.dec.rxc == 1 && Quiet(d, f.dec)
  {
    var e := EncFold(ip, 0);
    FinishedRunsDecode(d, ip, cap);
    var committed := ip[..|ip| - |e.open|];
    EncFoldOpenSuffix(ip, 0);
    var c: byte := |e.open| + 1;
    CloseRun(d, e.done, committed, cap, c, e.open);
    var f := FeedFrame(d, [], cap, e.done + [c] + e.open);
    if c == 0xFF {
      assert AtRunBoundary(f.dec, f.op, ip);
    } else {
      assert AtRunBoundary(f.dec, f.op, ip + [0]);
      assert f.op + [0] == ip + [0];
      assert f.op == (f.op + [0])[..|f.op|] == (ip + [0])[..|ip|] == ip;
    }
  }

  /** Round trip: from Idle with the default sentinel and an empty output vector with room for
      the input, decoding the encoding of any input completes on its final sentinel, delivers
      exactly the input, and counts one packet of |ip| good bytes and no bad ones. */
  lemma RoundTrip(d: Dec, ip: seq<byte>, cap: nat)
    requires d.state == Idle && d.sentinel == 0 && |ip| <= cap
    ensures var f := FeedFrame(d, [], cap, Encoded(ip, 0));
      f.result == Ok(()) && f.op == ip && f.used == |Encoded(ip, 0)| && f.dec.state == Idle &&
      f.dec.packets == d.packets + 1 && f.dec.goodbytes == d.goodbytes + |ip| &&
      f.dec.badbytes == d.badbytes && f.dec.toolong == d.toolong
  {
    var e := EncFold(ip, 0);
    var body := e.done + [|e.open| + 1] + e.open;
    BodyDecodes(d, ip, cap);
    var f1 := FeedFrame(d, [], cap, body);
    FinalSentinel(f1.dec, f1.op, cap);
    FeedFrameAppend(d, [], cap, body, [0]);
    assert body + [0] == Encoded(ip, 0);
  }

  /** The documented decode example: 05 11 22 33 44 00 gives 11 22 33 44. */
  lemma DecodeExample(d: Dec)
    requires d.state == Idle && d.sentinel == 0
    ensures var f := FeedFrame(d, [], MAX_PACKET_LEN, [0x05, 0x11, 0x22, 0x33, 0x44, 0x00]);
      f.result == Ok(()) && f.op == [0x11, 0x22, 0x33, 0x44]
  {
    EncodeExample();
    RoundTrip(d, [0x11, 0x22, 0x33, 0x44], MAX_PACKET_LEN);
  }

  /** In Flushing every non-sentinel byte is counted bad and nothing else happens. */
  lemma {:induction false} FlushingDiscards(d: Dec, op: seq<byte>, cap: nat, junk: seq<byte>)
    requires d.state == DecoderState.Flushing && |op| <= cap
    requires forall k :: 0 <= k < |junk| ==> junk[k] != d.sentinel
    decreases |junk|
    ensures FeedFrame(d, op, cap, junk) ==
      Feed(d.(inbytes := d.inbytes + |junk|, badbytes := d.badbytes + |junk|), op, Err(ShortData), |junk|)
  {
    if junk != [] {
      FlushingDiscards(d.(inbytes := d.inbytes + 1, badbytes := d.badbytes + 1), op, cap, junk[1..]);
    }
  }

  /** Resynchronisation from Flushing: the junk up to the next sentinel is counted bad and the
      packet after that sentinel decodes normally. */
  lemma Resynchronises(d: Dec, junk: seq<byte>, ip: seq<byte>, cap: nat)
    requires d.state == DecoderState.Flushing && d.sentinel == 0 && |ip| <= cap
    requires forall k :: 0 <= k < |junk| ==> junk[k] != 0
    ensures var f := FeedFrame(d, [], cap, junk + [0] + Encoded(ip, 0));
      f.result == Ok(()) && f.op == ip && f.dec.badbytes == d.badbytes + |junk| &&
      f.dec.packets == d.packets + 1
  {
    FlushingDiscards(d, [], cap, junk);
    var fj := FeedFrame(d, [], cap, junk);
    FeedFrameAppend(d, [], cap, junk, [0]);
    var fs := FeedFrame(d, [], cap, junk + [0]);
    assert fs.dec.state == Idle && fs.op == [] && fs.result == Err(ShortData);
    RoundTrip(fs.dec, ip, cap);
    FeedFrameAppend(d, [], cap, junk + [0], Encoded(ip, 0));
  }

  /** A packet cut short by a sentinel costs the packet after it as well: the sentinel that ended
      the short packet sends the decoder to Flushing, which then discards the next packet up to its
      own final sentinel. Nothing is delivered, and every byte of the next packet but its sentinel
      is counted bad. */
  lemma ShortPacketLosesNext(d: Dec, op: seq<byte>, cap: nat, ip: seq<byte>)
    requires d.state == Rxing && d.rxc != 1 && d.sentinel == 0 && |op| <= cap
    ensures var f := FeedFrame(d, op, cap, [0] + Encoded(ip, 0));
      f.result == Err(ShortData) && f.op == [] && f.dec.state == Idle &&
      f.dec.packets == d.packets && f.dec.goodbytes == d.goodbytes &&
      f.dec.badbytes == d.badbytes + |op| + |Encoded(ip, 0)| - 1
  {
    var enc := Encoded(ip, 0);
    EncodedShape(ip, 0);
    var body := enc[..|enc| - 1];
    assert body + [0] == enc;
    var s := GetByteStep(d, op, cap, 0);
    assert s.dec.state == DecoderState.Flushing && s.op == [] && s.result == Err(Ongoing);
    assert ([0] + enc)[0] == 0 && ([0] + enc)[1..] == enc;
    FlushingDiscards(s.dec, [], cap, body);
    FeedFrameAppend(s.dec, [], cap, body, [0]);
  }

  /** `get_byte` with the error path corrected: a sentinel inside a run still abandons the packet,
      but leaves the decoder Idle, since that sentinel already marks the start of the next one. */
  function ResyncGetByteStep(d: Dec, op: seq<byte>, cap: nat, c: byte): (s: Step)
    requires |op| <= cap
    ensures |s.op| <= cap && s.dec.sentinel == d.sentinel
    ensures TokenStep(d.(inbytes := d.inbytes + 1), c).action == Error ==>
      s.dec.state == Idle && s.op == [] && s.dec.badbytes == d.badbytes + |op| && s.result == Err(Ongoing)
    ensures TokenStep(d.(inbytes := d.inbytes + 1), c).action != Error ==> s == GetByteStep(d, op, cap, c)
  {
    var s := GetByteStep(d, op, cap, c);
    if TokenStep(d.(inbytes := d.inbytes + 1), c).action == Error then s.(dec := s.dec.(state := Idle))
    else s
  }

  /** `get_frame` over the corrected `get_byte`. */
  function ResyncFeedFrame(d: Dec, op: seq<byte>, cap: nat, bytes: seq<byte>): (f: Feed)
    requires |op| <= cap
    ensures |f.op| <= cap && f.used <= |bytes| && f.dec.sentinel == d.sentinel
    decreases |bytes|
  {
    if bytes == [] then Feed(d, op, Err(ShortData), 0)
    else
      var s := ResyncGetByteStep(d, op, cap, bytes[0]);
      if s.result.Ok? then Feed(s.dec, s.op, Ok(()), 1)
      else if s.result.error != Ongoing then Feed(s.dec, s.op, s.result, 1)
      else
        var f := ResyncFeedFrame(s.dec, s.op, cap, bytes[1..]);
        f.(used := f.used + 1)
  }

  /** The correction changes nothing on a stream that completes a packet and holds no sentinel
      before its last byte: an error needs a sentinel, and a final sentinel that errs completes
      nothing. */
  lemma {:induction false} ResyncAgrees(d: Dec, op: seq<byte>, cap: nat, bytes: seq<byte>)
    requires |op| <= cap
    requires forall k :: 0 <= k < |bytes| - 1 ==> bytes[k] != d.sentinel
    requires FeedFrame(d, op, cap, bytes).result.Ok?
    ensures ResyncFeedFrame(d, op, cap, bytes) == FeedFrame(d, op, cap, bytes)
    decreases |bytes|
  {
    var s := GetByteStep(d, op, cap, bytes[0]);
    if !s.result.Ok? {
      forall k | 0 <= k < |bytes[1..]| - 1 ensures bytes[1..][k] != s.dec.sentinel {
        assert bytes[1..][k] == bytes[k + 1];
      }
      ResyncAgrees(s.dec, s.op, cap, bytes[1..]);
    }
  }

  /** With the correction a packet cut short by a sentinel costs only itself: the next packet
      decodes to its input, and only the abandoned bytes are counted bad. */
  lemma ResyncAfterShortPacket(d: Dec, op: seq<byte>, cap: nat, ip: seq<byte>)
    requires d.state == Rxing && d.rxc != 1 && d.sentinel == 0 && |op| <= cap && |ip| <= cap
    ensures var f := ResyncFeedFrame(d, op, cap, [0] + Encoded(ip, 0));
      f.result == Ok(()) && f.op == ip && f.dec.state == Idle &&
      f.dec.packets == d.packets + 1 && f.dec.goodbytes == d.goodbytes + |ip| &&
      f.dec.badbytes == d.badbytes + |op|
  {
    var enc := Encoded(ip, 0);
    var s := ResyncGetByteStep(d, op, cap, 0);
    assert s.dec.state == Idle && s.op == [] && s.result == Err(Ongoing);
    assert ([0] + enc)[0] == 0 && ([0] + enc)[1..] == enc;
    RoundTrip(s.dec, ip, cap);
    EncodedShape(ip, 0);
    ResyncAgrees(s.dec, [], cap, enc);
  }

  /** Error handling of a single byte: a sentinel inside a run abandons the packet, a store into
      a full vector (a data byte, or the implicit sentinel stored when a byte ends a run) abandons
      it as too long, and a byte while flushing is counted bad. */
  lemma GetByteErrors(d: Dec, op: seq<byte>, cap: nat, c: byte)
    requires |op| <= cap
    ensures d.state == Rxing && d.rxc != 1 && c == d.sentinel ==>
      GetByteStep(d, op, cap, c) ==
      Step(d.(state := DecoderState.Flushing, rxc := WrappingDec(d.rxc), inbytes := d.inbytes + 1,
              badbytes := d.badbytes + |op|), [], Err(Ongoing))
    ensures TokenStep(d.(inbytes := d.inbytes + 1), c).action == Store && |op| == cap ==>
      GetByteStep(d, op, cap, c) ==
      Step(TokenStep(d.(inbytes := d.inbytes + 1), c).dec.(state := DecoderState.Flushing,
              badbytes := d.badbytes + |op|, toolong := d.toolong + 1), [], Err(Ongoing))
    ensures d.state == DecoderState.Flushing ==>
      GetByteStep(d, op, cap, c) ==
      if c == d.sentinel then Step(d.(state := Idle, inbytes := d.inbytes + 1), op, Err(Ongoing))
      else Step(d.(inbytes := d.inbytes + 1, badbytes := d.badbytes + 1), op, Err(Ongoing))
  {
  }

  /** At the end of a run the next byte, if not the sentinel, is the next run length; an implicit
      sentinel is stored for it unless the finished run had length 255. */
  lemma RunEnd(d: Dec, tok: byte)
    requires d.state == Rxing && d.rxc == 1 && tok != d.sentinel
    ensures TokenStep(d, tok) ==
      Token(d.(rxc := tok, maxcount := tok == 0xFF), d.sentinel, if d.maxcount then NoAction else Store)
  {
  }

  /** With the default sentinel a run never has length 0, so the u8 run counter never wraps. */
  lemma DefaultSentinelNoWrap(d: Dec, tok: byte)
    requires d.sentinel == 0 && (d.state == Rxing ==> d.rxc != 0)
    ensures var t := TokenStep(d, tok); t.dec.state == Rxing ==> t.dec.rxc != 0
  {
  }

  // ---------------------------------------------------------------------------------------------
  // The objects.

  /** A `Vec<u8>` made with a fixed capacity that `get_byte` fills but never grows. */
  class ByteVec {
    var contents: seq<byte>
    const capacity: nat

    predicate Valid()
      reads this
    {
      |contents| <= capacity
    }

    constructor WithCapacity(n: nat)
      ensures contents == [] && capacity == n && Valid()
    {
      contents := [];
      capacity := n;
    }
  }

  /** The COBS decoder object (its encoder only reads the sentinel). */
  class Cobs {
    var state: DecoderState
    var sentinel: byte
    var rxc: byte
    var maxcount: bool
    var inbytes: nat
    var goodbytes: nat
    var badbytes: nat
    var packets: nat
    var toolong: nat

    /** The decoder's registers and statistics as one value. */
    function Value(): Dec
      reads this
    {
      Dec(state, sentinel, rxc, maxcount, inbytes, goodbytes, badbytes, packets, toolong)
    }

    /** A new decoder is Idle, uses the default sentinel and has zeroed statistics. */
    constructor ()
      ensures Value() == Dec(Idle, DEFAULT_SENTINEL, 0, false, 0, 0, 0, 0, 0)
    {
      state, sentinel, rxc, maxcount := Idle, DEFAULT_SENTINEL, 0, false;
      inbytes, goodbytes, badbytes, packets, toolong := 0, 0, 0, 0, 0;
    }

    /** Change the sentinel; refused with Busy while a packet is being received, unless forced. */
    method SetSentinel(newSentinel: byte, force: bool) returns (r: Result<(), CobsError>)
      modifies this`sentinel
      ensures r.Err? <==> state == Rxing && !force
      ensures r.Err? ==> r.error == Busy && sentinel == old(sentinel)
      ensures r.Ok? ==> sentinel == newSentinel
    {
      if state != Rxing || force {
        sentinel := newSentinel;
        r := Ok(());
      } else {
        r := Err(Busy);
      }
    }

    /** The statistics: bytes in, good bytes, bad bytes, packets, too-long packets. */
    method Stats() returns (s: (nat, nat, nat, nat, nat))
      ensures s == (Value().inbytes, Value().goodbytes, Value().badbytes, Value().packets, Value().toolong)
    {
      s := (inbytes, goodbytes, badbytes, packets, toolong);
    }

    /** Run one byte through the state machine. */
    method ProcessToken(tok: byte) returns (val: byte, action: TokenResult)
      modifies this`state, this`rxc, this`maxcount
      ensures Token(Value(), val, action) == TokenStep(old(Value()), tok)
    {
      match state {
        case Idle =>
          if tok != sentinel {
            rxc := tok;
            maxcount := tok == 0xFF;
            state := Rxing;
          }
          val, action := 0, NoAction;
        case Rxing =>
          rxc := WrappingDec(rxc);
          if rxc == 0 {
            if sentinel == tok {
              state := Idle;
              val, action := tok, Complete;
            } else {
              action := if !maxcount then Store else NoAction;
              rxc := tok;
              maxcount := tok == 0xFF;
              val := sentinel;
            }
          } else if sentinel == tok {
            state := DecoderState.Flushing;
            val, action := tok, Error;
          } else {
            val, action := tok, Store;
          }
        case Flushing =>
          if sentinel != tok {
            val, action := tok, TokenResult.Flushing;
          } else {
            state := Idle;
            val, action := sentinel, NoAction;
          }
      }
    }

    /** Pass one byte through the packet assembler, appending to `op` while it has room. */
    method GetByte(c: byte, op: ByteVec) returns (r: Result<(), CobsError>)
      requires op.Valid()
      modifies this, op
      ensures op.Valid()
      ensures Step(Value(), op.contents, r) == GetByteStep(old(Value()), old(op.contents), op.capacity, c)
    {
      ghost var d0 := Value();
      ghost var op0 := op.contents;
      inbytes := inbytes + 1;
      var val, action := ProcessToken(c);
      ghost var t := TokenStep(d0.(inbytes := d0.inbytes + 1), c);
      assert Value() == t.dec && val == t.val && action == t.action;
      ghost var s := GetByteStep(d0, op0, op.capacity, c);
      r := Err(Ongoing);
      match action {
        case Error =>
          badbytes := badbytes + |op.contents|;
          op.contents := [];
          assert s == Step(Value(), op.contents, r);
        case Flushing =>
          badbytes := badbytes + 1;
          assert s == Step(Value(), op.contents, r);
        case NoAction =>
          assert s == Step(Value(), op.contents, r);
        case Store =>
          if |op.contents| < op.capacity {
            op.contents := op.contents + [val];
          } else {
            badbytes := badbytes + |op.contents|;
            toolong := toolong + 1;
            op.contents := [];
            state := DecoderState.Flushing;
          }
          assert s == Step(Value(), op.contents, r);
        case Complete =>
          packets := packets + 1;
          goodbytes := goodbytes + |op.contents|;
          r := Ok(());
          assert s == Step(Value(), op.contents, r);
      }
    }

    /** Feed bytes until a packet completes (Ok) or they run out (ShortData, packet kept pending).
        `used` is how far the iterator was advanced. */
    method GetFrame(bytes: seq<byte>, op: ByteVec) returns (r: Result<(), CobsError>, used: nat)
      requires op.Valid()
      modifies this, op
      ensures op.Valid()
      ensures Feed(Value(), op.contents, r, used) ==
        FeedFrame(old(Value()), old(op.contents), op.capacity, bytes)
    {
      used := 0;
      while true
        invariant op.Valid() && used <= |bytes|
        invariant var f := FeedFrame(Value(), op.contents, op.capacity, bytes[used..]);
          FeedFrame(old(Value()), old(op.contents), op.capacity, bytes) == f.(used := f.used + used)
        decreases |bytes| - used
      {
        if used == |bytes| {
          return Err(ShortData), used;
        }
        ghost var before := Value();
        ghost var opBefore := op.contents;
        var t := bytes[used];
        used := used + 1;
        var g := GetByte(t, op);
        assert bytes[used - 1..][1..] == bytes[used..];
        match g {
          case Ok(_) =>
            return Ok(()), used;
          case Err(e) =>
            if e != Ongoing {
              return Err(e), used;
            }
        }
      }
    }

    /** Decode into a fresh vector of capacity MAX_PACKET_LEN. Running out of bytes loses the
        partial packet: its bytes are counted bad and the decoder flushes to the next sentinel. */
    method GetFrameAsVec(bytes: seq<byte>) returns (r: Result<seq<byte>, CobsError>, used: nat)
      modifies this
      ensures var f := FeedFrame(old(Value()), [], MAX_PACKET_LEN, bytes);
        used == f.used &&
        (f.result.Ok? ==> r == Ok(f.op) && Value() == f.dec) &&
        (f.result.Err? ==>
          r == Err(ShortData) &&
          Value() == f.dec.(badbytes := f.dec.badbytes + |f.op|, state := DecoderState.Flushing))
    {
      var op := new ByteVec.WithCapacity(MAX_PACKET_LEN);
      var g;
      g, used := GetFrame(bytes, op);
      match g {
        case Ok(_) =>
          r := Ok(op.contents);
        case Err(e) =>
          if e == ShortData {
            badbytes := badbytes + |op.contents|;
            state := DecoderState.Flushing;
          }
          r := Err(e);
      }
    }

    /** Encode `ip` into the empty vector `e`: push a placeholder for each run length and patch
        it when the run closes, either at a sentinel-valued input byte or after 254 data bytes. */
    method CobsEncode(ip: seq<byte>, e: ByteVec) returns (r: Result<(), CobsError>)
      requires e.contents == []
      modifies e`contents
      ensures r == Err(ZeroLength) <==> |ip| == 0
      ensures r == Err(Overlong) <==> |ip| > MAX_PACKET_LEN
      ensures r.Ok? <==> 1 <= |ip| <= MAX_PACKET_LEN
      ensures r.Ok? ==> e.contents == Encoded(ip, sentinel)
      ensures r.Err? ==> e.contents == []
    {
      OverlongCheckAgrees(|ip|);
      if |ip| == 0 {
        return Err(ZeroLength);
      } else if MaxPossibleEncLen(|ip|) > MAX_ENC_PACKET_LEN {
        return Err(Overlong);
      }
      var d: nat := 0;
      e.contents := e.contents + [sentinel];
      ghost var enc := Enc([], []);
      assert ip[..0] == [];
      for k := 0 to |ip|
        invariant enc == EncFold(ip[..k], sentinel) && |enc.open| <= 254
        invariant e.contents == enc.done + [sentinel] + enc.open && d == |enc.done|
      {
        EncFoldNext(ip, k, sentinel);
        d := EncodeByte(e, d, ip[k], enc);
        enc := EncStep(enc, ip[k], sentinel);
      }
      FinishPacket(e, d, enc);
      EncodedParts(ip, sentinel);
      r := Ok(());
    }

    /** After the last input byte: patch the length of the open run and append the sentinel. */
    method FinishPacket(e: ByteVec, d: nat, ghost enc: Enc)
      requires |enc.open| <= 254
      requires e.contents == enc.done + [sentinel] + enc.open && d == |enc.done|
      modifies e`contents
      ensures e.contents == enc.done + [|enc.open| + 1] + enc.open + [sentinel]
    {
      Patch(enc.done, enc.open, sentinel, |enc.open| + 1);
      e.contents := e.contents[d := |e.contents| - d];
      e.contents := e.contents + [sentinel];
    }

    /** One iteration of the encoder loop: `d` indexes the placeholder of the open run. */
    method EncodeByte(e: ByteVec, d: nat, x: byte, ghost enc: Enc) returns (d2: nat)
      requires |enc.open| <= 254
      requires e.contents == enc.done + [sentinel] + enc.open && d == |enc.done|
      modifies e`contents
      ensures var enc2 := EncStep(enc, x, sentinel);
        e.contents == enc2.done + [sentinel] + enc2.open && d2 == |enc2.done|
    {
      ghost var cur := enc;
      d2 := d;
      if |e.contents| - d2 == 0xFF {
        Patch(cur.done, cur.open, sentinel, 0xFF);
        e.contents := e.contents[d2 := |e.contents| - d2];
        d2 := |e.contents|;
        e.contents := e.contents + [sentinel];
        cur := Enc(cur.done + [0xFF] + cur.open, []);
      }
      if x == sentinel {
        Patch(cur.done, cur.open, sentinel, |cur.open| + 1);
        e.contents := e.contents[d2 := |e.contents| - d2];
        d2 := |e.contents|;
        cur := Enc(cur.done + [|cur.open| + 1] + cur.open, []);
        assert e.contents + [x] == cur.done + [sentinel] + cur.open;
      } else {
        cur := Enc(cur.done, cur.open + [x]);
      }
      e.contents := e.contents + [x];
      assert cur == EncStep(enc, x, sentinel);
    }

    /** Encode `ip` into a new vector. */
    method CobsEncodeIntoVec(ip: seq<byte>) returns (r: Result<seq<byte>, CobsError>)
      ensures r == Err(ZeroLength) <==> |ip| == 0
      ensures r == Err(Overlong) <==> |ip| > MAX_PACKET_LEN
      ensures r.Ok? <==> 1 <= |ip| <= MAX_PACKET_LEN
      ensures r.Ok? ==> r.value == Encoded(ip, sentinel) && |r.value| <= MAX_ENC_PACKET_LEN
    {
      var e := new ByteVec.WithCapacity(MAX_ENC_PACKET_LEN);
      var g := CobsEncode(ip, e);
      match g {
        case Ok(_) =>
          EncodedFits(ip, sentinel);
          r := Ok(e.contents);
        case Err(err) =>
          r := Err(err);
      }
    }
  }

  /** Encoding with one decoder and decoding with a fresh one gives the packet back. */
  method EncodeThenDecode(ip: seq<byte>) returns (r: Result<seq<byte>, CobsError>)
    requires 1 <= |ip| <= MAX_PACKET_LEN
    ensures r == Ok(ip)
  {
    var enc := new Cobs();
    var wire := enc.CobsEncodeIntoVec(ip);
    var dec := new Cobs();
    RoundTrip(dec.Value(), ip, MAX_PACKET_LEN);
    var used;
    r, used := dec.GetFrameAsVec(wire.value);
  }
}
