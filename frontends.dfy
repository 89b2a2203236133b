/**
  The two front ends, `udpProcessQuery` (main.go:52-66) and
  `tcpProcessQuery` (main.go:95-115), each as a function of the query it
  received and of the relay it calls. The relay is a parameter, so the
  contracts say exactly which bytes are handed to it and which bytes of its
  result go back to the client; `TlsRelay.Relay` instantiates it.
 */
module FrontEnds {
  import opened Wire
  import opened TlsRelay

  /** What a handler sends back to its client. `Crashed`: an out-of-range slice panicked. */
  datatype Reply = Sent(bytes: seq<Byte>) | NothingSent | Crashed

  /**
    The header `udpProcessQuery` puts before a datagram (main.go:55): a zero
    byte, then `byte(len(q))`, the length truncated to its low eight bits.
   */
  function UdpFrame(q: seq<Byte>): (f: seq<Byte>)
    ensures |f| == |q| + 2 && f[2..] == q
    ensures f[0] == 0 && f[1] as int == |q| % 256
  {
    [0, (|q| % 256) as Byte] + q
  }

  /** The slice `response[2:]` (main.go:64): drops the two-byte header. */
  function StripHeader(response: seq<Byte>): (payload: seq<Byte>)
    requires |response| >= 2
    ensures |payload| == |response| - 2 && response == response[..2] + payload
  {
    response[2..]
  }

  /** Stripping the header of a framed datagram gives the datagram back. */
  lemma StripUdpFrame(q: seq<Byte>)
    ensures StripHeader(UdpFrame(q)) == q
  {
  }

  /**
    The proxy's header is the length field of section 4.2.2 of RFC 1035
    exactly when the datagram is shorter than 256 bytes.
   */
  lemma UdpFrameIsFrameIff(q: seq<Byte>)
    requires |q| < LengthFieldRange
    ensures UdpFrame(q) == Frame(q) <==> |q| < 256
  {
  }

  /**
    Whatever its size, the framed datagram is well formed for the upstream
    server exactly when the datagram is shorter than 256 bytes.
   */
  lemma UdpFrameIsFramedIff(q: seq<Byte>)
    ensures IsFramed(UdpFrame(q)) <==> |q| < 256
  {
  }

  /**
    From 256 bytes on, the header announces `|q| mod 256` bytes, fewer than
    follow it: a 256-byte datagram is announced as empty.
   */
  lemma UdpFrameUndercounts(q: seq<Byte>)
    requires |q| >= 256
    ensures DecodeLength(UdpFrame(q)[..2]) == |q| % 256 < |q|
    ensures |q| == 256 ==> DecodeLength(UdpFrame(q)[..2]) == 0
  {
  }

  /**
    `udpProcessQuery`: frame the datagram, relay it, and on success send the
    response without its first two bytes; on a relay error send nothing.
   */
  function UdpProcessQuery(q: seq<Byte>, relay: seq<Byte> -> RelayResult): (reply: Reply)
    ensures reply.Sent? <==> relay(UdpFrame(q)).Answer? && |relay(UdpFrame(q)).response| >= 2
    ensures reply.Sent? ==> relay(UdpFrame(q)).response == relay(UdpFrame(q)).response[..2] + reply.bytes
    ensures reply.NothingSent? <==> relay(UdpFrame(q)).Failed?
  {
    match relay(UdpFrame(q))
    case Answer(response) => if |response| < 2 then Crashed else Sent(StripHeader(response))
    case Failed(_) => NothingSent
    case Panicked => Crashed
  }

  /**
    `tcpProcessQuery`: read once from the client, relay the bytes read as
    they are (the client has framed them), and write back the relay's
    response as it is; on a read or relay error write nothing.
   */
  function TcpProcessQuery(client: ReadOutcome, relay: seq<Byte> -> RelayResult): (reply: Reply)
    ensures client.ReadError? ==> reply.NothingSent?
    ensures client.Delivered? ==>
      && (reply.Sent? <==> relay(ReadPrefix(client.bytes)).Answer?)
      && (reply.Sent? ==> reply.bytes == relay(ReadPrefix(client.bytes)).response)
      && (reply.NothingSent? <==> relay(ReadPrefix(client.bytes)).Failed?)
  {
    match client
    case ReadError => NothingSent
    case Delivered(bytes) =>
      match relay(ReadPrefix(bytes))
      case Answer(response) => Sent(response)
      case Failed(_) => NothingSent
      case Panicked => Crashed
  }

  /** The relay of main.go against a given upstream, as a handler's parameter. */
  function Upstreamed(up: Upstream): seq<Byte> -> RelayResult
  {
    query => Relay(query, up)
  }

  /**
    Against the real relay the UDP handler never panics at its own slice
    (main.go:64) nor at the relay's first slice (main.go:118); it crashes
    only when the upstream's read yields fewer than two bytes (main.go:153).
    What it sends is at most `MaxMsgSize - 2` bytes.
   */
  lemma UdpReplyAgainstRelay(q: seq<Byte>, up: Upstream)
    ensures UdpProcessQuery(q, Upstreamed(up)).Crashed? <==>
      up.dialOk && up.hostnameOk && up.writeOk && up.response.Delivered? && |up.response.bytes| < 2
    ensures UdpProcessQuery(q, Upstreamed(up)).Sent? ==>
      |UdpProcessQuery(q, Upstreamed(up)).bytes| <= MaxMsgSize - 2
  {
  }

  /**
    A UDP round trip with a conforming upstream: when the server's one read
    delivers the framed answer `m`, the client gets `m` back.
   */
  lemma UdpAnswerRoundTrip(q: seq<Byte>, m: seq<Byte>, up: Upstream)
    requires |m| + 2 <= MaxMsgSize
    requires up.dialOk && up.hostnameOk && up.writeOk && up.response == Delivered(Frame(m))
    ensures UdpProcessQuery(q, Upstreamed(up)) == Sent(m)
  {
  }

  /**
    TCP passthrough: whatever the relay does, a query of at most
    `MaxMsgSize` bytes reaches it unchanged and the client gets exactly its
    answer. Against the real relay, a query of fewer than two bytes makes
    the relay panic (main.go:118).
   */
  lemma TcpPassthrough(f: seq<Byte>, relay: seq<Byte> -> RelayResult, up: Upstream)
    requires |f| <= MaxMsgSize
    ensures TcpProcessQuery(Delivered(f), relay) ==
      match relay(f)
      case Answer(response) => Sent(response)
      case Failed(_) => NothingSent
      case Panicked => Crashed
    ensures |f| < 2 ==> TcpProcessQuery(Delivered(f), Upstreamed(up)).Crashed?
  {
  }

  /**
    For a datagram shorter than 256 bytes and whatever the relay does, the
    UDP front end behaves like a TCP client that framed the datagram itself
    and stripped the answer's header: both hand the relay the same bytes.
   */
  lemma UdpAgreesWithTcp(q: seq<Byte>, relay: seq<Byte> -> RelayResult)
    requires |q| < 256
    ensures UdpProcessQuery(q, relay) ==
      match TcpProcessQuery(Delivered(Frame(q)), relay)
      case Sent(response) => if |response| < 2 then Crashed else Sent(response[2..])
      case other => other
  {
    UdpFrameIsFrameIff(q);
  }
}
