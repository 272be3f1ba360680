/**
 * The OFLOW (orbflow) frame layer: a frame is one stream-number byte, the payload,
 * and a two's-complement checksum byte that makes the whole frame sum to zero modulo 256.
 * The decoder works on complete frames only and keeps six statistics counters.
 */
module OFlow {
  import opened Results
  import opened Bytes

  /** Longest payload an OFLOW frame may carry. */
  const MAX_PACKET_LEN: nat := 8192
  const STREAM_LEN: nat := 1
  const CHECKSUM_LEN: nat := 1
  /** Bytes of a frame that are not payload: the stream number and the checksum. */
  const OVERHEAD_LEN: nat := STREAM_LEN + CHECKSUM_LEN
  const MAX_ENC_PACKET_LEN: nat := OVERHEAD_LEN + MAX_PACKET_LEN

  datatype OFlowError = Overlong | ShortData | BadChecksum | Unimplemented

  /** Sum of all bytes, accumulated front to back as the decoder does (no wrap: at most 8194 * 255). */
  function Sum(s: seq<byte>): nat
  {
    if s == [] then 0 else Sum(s[..|s| - 1]) + s[|s| - 1]
  }

  /** The byte that, appended to `s`, makes the frame sum to 0 modulo 256. */
  function ChecksumByte(s: seq<byte>): (c: byte)
    ensures (Sum(s) + c) % 0x100 == 0
  {
    (0x100 - Sum(s) % 0x100) % 0x100
  }

  /** A decoded frame keeps the whole received vector; accessors skip the stream byte. */
  datatype OFlowFrame = OFlowFrame(streamNumber: byte, inner: seq<byte>)
  {
    /** The payload: everything between the stream number and the checksum. */
    function Content(): (c: seq<byte>)
      requires |inner| >= STREAM_LEN + CHECKSUM_LEN
      ensures |c| == |inner| - OVERHEAD_LEN
      ensures forall k :: 0 <= k < |c| ==> c[k] == inner[k + STREAM_LEN]
    {
      inner[STREAM_LEN..|inner| - CHECKSUM_LEN]
    }

    /** `frame[i]`: byte i of the payload. The bound is that of the underlying vector, so one
        index past the payload still succeeds and yields the checksum byte. */
    function Index(i: nat): (b: byte)
      requires i + STREAM_LEN < |inner|
      ensures |inner| >= OVERHEAD_LEN && i < |Content()| ==> b == Content()[i]
      ensures i + 1 == |inner| - 1 ==> b == inner[|inner| - 1]
    {
      inner[i + STREAM_LEN]
    }

    /** `*frame`: dereferencing a frame gives its payload. */
    function Deref(): (r: seq<byte>)
      requires |inner| >= STREAM_LEN + CHECKSUM_LEN
      ensures |r| == |inner| - OVERHEAD_LEN
      ensures forall k :: 0 <= k < |r| ==> r[k] == Index(k)
    {
      Content()
    }
  }

  /** What `decode` returns for `ip`: the three checks in the order the decoder applies them. */
  function DecodeResult(ip: seq<byte>): (r: Result<OFlowFrame, OFlowError>)
    ensures r.Ok? <==> 3 <= |ip| <= MAX_ENC_PACKET_LEN && Sum(ip) % 0x100 == 0
    ensures r == Err(ShortData) <==> |ip| < 3
    ensures r == Err(Overlong) <==> |ip| > MAX_ENC_PACKET_LEN
    ensures r == Err(BadChecksum) <==> 3 <= |ip| <= MAX_ENC_PACKET_LEN && Sum(ip) % 0x100 != 0
    ensures r != Err(Unimplemented)
    ensures r.Ok? ==> r.value.streamNumber == ip[0] && r.value.inner == ip
    ensures r.Ok? ==> |r.value.Content()| == |ip| - OVERHEAD_LEN && r.value.Deref() == ip[1..|ip| - 1]
  {
    if |ip| < 3 then Err(ShortData)
    else if |ip| > MAX_ENC_PACKET_LEN then Err(Overlong)
    else if Sum(ip) % 0x100 != 0 then Err(BadChecksum)
    else Ok(OFlowFrame(ip[0], ip))
  }

  /** Splitting off the last byte of a sum. */
  lemma SumSnoc(s: seq<byte>, b: byte)
    ensures Sum(s + [b]) == Sum(s) + b
  {
    assert (s + [b])[..|s + [b]| - 1] == s;
  }

  /** A stream number, a payload of 1..8192 bytes and its checksum byte always decode, to that payload. */
  lemma ChecksummedFrameDecodes(stream: byte, payload: seq<byte>)
    requires 1 <= |payload| <= MAX_PACKET_LEN
    ensures var frame := [stream] + payload + [ChecksumByte([stream] + payload)];
      DecodeResult(frame).Ok? && DecodeResult(frame).value.streamNumber == stream &&
      DecodeResult(frame).value.Content() == payload
  {
    var body := [stream] + payload;
    var frame := body + [ChecksumByte(body)];
    SumSnoc(body, ChecksumByte(body));
    assert frame[1..|frame| - 1] == payload;
  }

  /** The checksum byte is the only last byte that lets a frame of acceptable length decode. */
  lemma OnlyChecksumByteDecodes(body: seq<byte>, last: byte)
    requires 2 <= |body| < MAX_ENC_PACKET_LEN
    ensures DecodeResult(body + [last]).Ok? <==> last == ChecksumByte(body)
  {
    SumSnoc(body, last);
  }

  /** The OFLOW encoder/decoder object and its statistics. */
  class OFlow {
    var inbytestotal: nat   // payload bytes of accepted frames
    var outbytestotal: nat
    var inpackets: nat      // frames accepted
    var outpackets: nat
    var inerrpackets: nat   // frames rejected for their checksum
    var outerrpackets: nat

    /** A new instance has all statistics zeroed. */
    constructor ()
      ensures inbytestotal == 0 && outbytestotal == 0 && inpackets == 0
      ensures outpackets == 0 && inerrpackets == 0 && outerrpackets == 0
    {
      inbytestotal, outbytestotal, inpackets := 0, 0, 0;
      outpackets, inerrpackets, outerrpackets := 0, 0, 0;
    }

    /** Check and unwrap one frame, summing its bytes in a loop and updating the statistics. */
    method Decode(ip: seq<byte>) returns (r: Result<OFlowFrame, OFlowError>)
      modifies this
      ensures r == DecodeResult(ip)
      ensures inpackets == old(inpackets) + (if r.Ok? then 1 else 0)
      ensures inbytestotal == old(inbytestotal) + (if r.Ok? then |ip| - OVERHEAD_LEN else 0)
      ensures inerrpackets == old(inerrpackets) + (if r == Err(BadChecksum) then 1 else 0)
      ensures outbytestotal == old(outbytestotal) && outpackets == old(outpackets)
      ensures outerrpackets == old(outerrpackets)
    {
      if |ip| < 3 {
        r := Err(ShortData);
      } else if |ip| > MAX_ENC_PACKET_LEN {
        r := Err(Overlong);
      } else {
        var sum: nat := 0;
        for k := 0 to |ip|
          invariant sum == Sum(ip[..k])
        {
          assert ip[..k + 1][..k] == ip[..k];
          sum := sum + ip[k];
        }
        assert ip[..|ip|] == ip;
        if sum % 0x100 != 0 {
          inerrpackets := inerrpackets + 1;
          r := Err(BadChecksum);
        } else {
          inpackets := inpackets + 1;
          inbytestotal := inbytestotal + (|ip| - OVERHEAD_LEN);
          r := Ok(OFlowFrame(ip[0], ip));
        }
      }
    }

    /** Building frames is not implemented: every call fails and no statistic moves. */
    method Encode(streamNumber: byte, data: seq<byte>) returns (r: Result<seq<byte>, OFlowError>)
      ensures r == Err(Unimplemented)
    {
      r := Err(Unimplemented);
    }
  }

  /** A well-formed frame: stream 27, payload 1 2 3, checksum 223. */
  lemma GoodPacketExample()
    ensures var r := DecodeResult([27, 1, 2, 3, 223]);
      r.Ok? && r.value.Content() == [1, 2, 3] && r.value.Deref() == [1, 2, 3] &&
      r.value.Index(0) == 1 && r.value.Index(1) == 2 && r.value.Index(2) == 3
  {
    SumOfFrame(27, 1, 2, 3, 223);
  }

  /** The same frame with a wrong checksum, a two-byte vector and an 8195-byte vector are rejected. */
  lemma RejectedPacketExamples()
    ensures DecodeResult([27, 1, 2, 3, 34]) == Err(BadChecksum)
    ensures DecodeResult([27, 1]) == Err(ShortData)
    ensures DecodeResult(seq(8195, _ => 27)) == Err(Overlong)
  {
    SumOfFrame(27, 1, 2, 3, 34);
  }

  lemma SumOfFrame(a: byte, b: byte, c: byte, d: byte, e: byte)
    ensures Sum([a, b, c, d, e]) == a + b + c + d + e
  {
    SumSnoc([], a);
    assert [] + [a] == [a];
    SumSnoc([a], b);
    assert [a] + [b] == [a, b];
    SumSnoc([a, b], c);
    assert [a, b] + [c] == [a, b, c];
    SumSnoc([a, b, c], d);
    assert [a, b, c] + [d] == [a, b, c, d];
    SumSnoc([a, b, c, d], e);
    assert [a, b, c, d] + [e] == [a, b, c, d, e];
  }
}
