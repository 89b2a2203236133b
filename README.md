# dns-over-tls-proxy: the per-query byte handling, in Dafny

The proxy takes DNS queries over plain UDP and plain TCP. It forwards each one
to an upstream DNS-over-TLS server over a fresh TLS connection. It then sends
the answer back in the client's own transport. This model covers what
`main.go` does to the bytes of one query:

- **UDP framing** (`udpProcessQuery`). The datagram gets a two-byte header
  `{0, byte(len(q))}` before it is relayed. The answer's first two bytes are
  dropped before it is sent back.
- **TCP passthrough** (`tcpProcessQuery`). The bytes of one read are relayed
  unchanged, and the relay's answer is written back unchanged.
- **The relay** (`sendTcpDnsQuery`). It dials, verifies the hostname, writes
  the query and reads the answer. Each failure returns at once. On success it
  returns the first `n` bytes of a `dns.MaxMsgSize` buffer.

The network is a parameter. An `Upstream` value says whether the dial, the
hostname check and the write succeed, and what the single read delivers. The
relay returns a `RelayResult` and a trace of the calls it made on the
connection. Each front end is a function of the query it received and of a
relay function. So its contract says exactly which bytes go to the relay and
which bytes come back to the client.

Go's out-of-range slices panic. The model keeps those panics as explicit
outcomes (`Panicked`, `Crashed`) and does not turn them into preconditions,
because the code never checks the lengths:

- `dnsQuery[2:]` at main.go:118 needs a query of at least two bytes.
- `responseReceived[2:responseLength]` at main.go:153 needs an answer of at
  least two bytes.
- `responseReceived[2:]` at main.go:64 cannot panic against the real relay,
  because the relay has already panicked on any shorter answer.

The UDP header is reproduced as written. Its first byte is always 0 and its
second byte is the length modulo 256. The model proves that this header is the
big-endian length field of section 4.2.2 of RFC 1035 (reused by section 3.3 of
RFC 7858) exactly when the datagram is shorter than 256 bytes. From 256 bytes
on, the header announces fewer bytes than follow it.

The code closes the upstream connection only after a complete exchange.
Every error return after a successful dial (main.go:132-151) leaves the
connection open; only main.go:156 closes it. The model follows the code:
`Close` appears in the trace only on success.

Files: `wire.dfy` holds bytes, `MaxMsgSize` and the reference length field.
`relay.dfy` models `sendTcpDnsQuery`. `frontends.dfy` models the two handlers.

## Model

| member | source | states |
|---|---|---|
| Wire.LengthField | main.go:55 | the two-byte big-endian length field that the UDP header is meant to be; for every length below 65536 it decodes back to that length |
| Wire.LengthFieldOfDecoded | main.go:55 | every two-byte field is the encoding of its own value, so no two lengths share a field |
| Wire.Frame | main.go:55 | the reference framing: the length field, then the message; it is well formed, two bytes longer, and its tail is the message |
| Wire.FramedIsFrameOfPayload | main.go:64 | any well-formed framed message is the reference framing of what follows its first two bytes, so dropping two bytes undoes the framing |
| TlsRelay.ReadPrefix | main.go:145-146 | what one read into a fresh `MaxMsgSize` buffer keeps: a prefix of the delivered bytes, at most `MaxMsgSize` long, and all of them when they fit |
| TlsRelay.ReadOnce | main.go:145-146 | allocating the buffer, reading into it and slicing `[:n]` yields exactly `ReadPrefix` of the delivered bytes |
| TlsRelay.Relay | main.go:117-158 | the relay answers exactly when the query has two bytes, every step succeeds and the read yields two bytes; the answer is a prefix of what was read, between 2 and `MaxMsgSize` bytes; it panics exactly when the query or the read is shorter than two bytes |
| TlsRelay.SendTcpDnsQuery | main.go:117-158 | computes `Relay`; its calls are a prefix of dial, verify, write, read, close in that order; a failure is the last call made; close happens only on success; a failed hostname check means no query is written and nothing is read; a short query panics before any call; a short read panics after dial, verify, write and read, with no close |
| FrontEnds.UdpFrame | main.go:55 | the framed datagram is two bytes longer, its tail is the datagram, its first byte is 0 and its second is the length modulo 256 |
| FrontEnds.StripHeader | main.go:64 | the slice `[2:]` keeps all but the first two bytes of the answer, and the answer is those two bytes followed by it |
| FrontEnds.StripUdpFrame | main.go:55 | dropping the first two bytes of a framed datagram gives the datagram back |
| FrontEnds.UdpFrameIsFrameIff | main.go:55 | the UDP header equals the RFC 1035 length field if and only if the datagram is shorter than 256 bytes |
| FrontEnds.UdpFrameIsFramedIff | main.go:55 | the framed datagram is well formed for the upstream server if and only if the datagram is shorter than 256 bytes |
| FrontEnds.UdpFrameUndercounts | main.go:55 | from 256 bytes on, the header announces the length modulo 256, fewer bytes than follow; a 256-byte datagram is announced as empty |
| FrontEnds.UdpProcessQuery | main.go:52-66 | the relay is given the framed datagram; the client gets the relay's answer minus its first two bytes exactly when the relay answers with at least two bytes; nothing is sent exactly when the relay fails |
| FrontEnds.TcpProcessQuery | main.go:95-115 | a read error sends nothing; otherwise the relay is given the bytes read, unchanged; the client gets exactly the relay's answer when there is one, and nothing when the relay fails |
| FrontEnds.UdpReplyAgainstRelay | main.go:57-64 | against the real relay the UDP handler crashes exactly when every step succeeds but the read yields fewer than two bytes, and it sends at most `MaxMsgSize - 2` bytes |
| FrontEnds.UdpAnswerRoundTrip | main.go:57-64 | when the upstream's read delivers the framed answer `m`, the UDP client receives exactly `m` |
| FrontEnds.TcpPassthrough | main.go:97-112 | for every relay, a TCP query of at most `MaxMsgSize` bytes reaches it unchanged and its answer comes back unchanged; against the real relay a query shorter than two bytes crashes it |
| FrontEnds.UdpAgreesWithTcp | main.go:52-66 | for every relay and a datagram shorter than 256 bytes, the UDP path relays the same bytes as a TCP client that framed the datagram itself, and returns that client's answer without its header |

## Left out

- The listener loops and socket setup (main.go:28-50, main.go:68-93) are I/O plumbing. The UDP loop returns on a read error (main.go:43-46). The TCP loop continues after an accept error (main.go:85-88). The UDP port is hard-coded as `":53"` (main.go:29). The UDP handler's input is the datagram the loop already sliced to its length.
- Goroutines (main.go:24, :48, :91): each handler is a function of its own inputs only, and the handlers share no state. So a relay error (`Failed`, which leads to `NothingSent`) in one query cannot affect another. A `Crashed` outcome is different: main.go has no `recover`, and an unrecovered panic in any goroutine ends the whole process. That ends every query in flight and both listeners. One TCP client that sends a single byte (main.go:98, :105, then the slice at :118) is enough, and so is an upstream read shorter than two bytes (main.go:153). The model records the panic for the one query and does not model the end of the others.
- The TLS dial and `VerifyHostname` internals (main.go:124, :131) are calls into `crypto/tls`. Only whether each one succeeds is modelled.
- `checkAndPrintDnsInfo` (main.go:160-172) only decodes and logs. Only the slices passed to it (main.go:118, :153) are modelled, because they can panic.
- The results of `WriteTo` (main.go:64) and of `Write` to the TCP client (main.go:112) are ignored by the code. `Sent` means the write was issued.
- The TCP handler closes the client connection only after it has written an answer (main.go:114). Closing the client side is not modelled.
- A read that returns bytes together with an error is modelled as `ReadError`, because the code discards the bytes in that case.
- Logging (`slog`), `main` startup and the configuration in `config/config.go` (viper defaults and environment binding) are left out. The upstream address is not needed, because the upstream is a parameter.
