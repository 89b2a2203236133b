/**
  The upstream relay, `sendTcpDnsQuery` (main.go:117-158): one exchange with
  the DNS-over-TLS server over a fresh connection. The network is not
  modelled; an `Upstream` value says how each of the four calls the relay
  makes on it (dial, hostname check, write, read) turns out, and the relay
  reports the calls it made, in order, as a trace of `Step`s.
 */
module TlsRelay {
  import opened Wire

  datatype RelayError = ConnectFailed | CertificateInvalid | WriteFailed | ReadFailed

  /** What one `Read` call on a connection gives back: an error, or the bytes the transport had ready. */
  datatype ReadOutcome = ReadError | Delivered(bytes: seq<Byte>)

  /** How the upstream server and the network answer each call of one exchange. */
  datatype Upstream = Upstream(
    dialOk: bool,          // tls.Dial succeeds
    hostnameOk: bool,      // the certificate names the configured server
    writeOk: bool,         // Write of the query succeeds
    response: ReadOutcome) // the one Read of the response

  /**
    The relay's result: the response it returns, the error it returns,
    or a run-time panic of an out-of-range slice (which ends the process).
   */
  datatype RelayResult = Answer(response: seq<Byte>) | Failed(error: RelayError) | Panicked

  /** A call the relay makes on the upstream connection. */
  datatype Step = Dial | VerifyHostname | WriteQuery(query: seq<Byte>) | ReadResponse | Close

  /** Every call of a successful exchange, in the order the relay makes them. */
  function Exchange(query: seq<Byte>): seq<Step>
  {
    [Dial, VerifyHostname, WriteQuery(query), ReadResponse, Close]
  }

  /** How many calls of `Exchange` have been made when a step fails: the failing call is the last. */
  function StepsBefore(error: RelayError): nat
  {
    match error
    case ConnectFailed => 1
    case CertificateInvalid => 2
    case WriteFailed => 3
    case ReadFailed => 4
  }

  /**
    What is left of the `delivered` bytes after one `Read` into a fresh
    buffer of `MaxMsgSize` bytes and the slice `buffer[:n]` (main.go:97-98
    and :105, main.go:145-146 and :157).
   */
  function ReadPrefix(delivered: seq<Byte>): (kept: seq<Byte>)
    ensures |kept| <= MaxMsgSize && kept <= delivered
    ensures |delivered| <= MaxMsgSize ==> kept == delivered
  {
    delivered[..Min(|delivered|, MaxMsgSize)]
  }

  /**
    Allocate the buffer, read into it, keep the first `n` bytes. A `Read`
    copies at most as many bytes as the buffer holds; the loop stands for
    that copy.
   */
  method ReadOnce(delivered: seq<Byte>) returns (kept: seq<Byte>)
    ensures kept == ReadPrefix(delivered)
  {
    var buffer := new Byte[MaxMsgSize];
    var n := Min(|delivered|, buffer.Length);
    var i := 0;
    while i < n
      invariant 0 <= i <= n
      invariant buffer[..i] == delivered[..i]
    {
      buffer[i] := delivered[i];
      i := i + 1;
    }
    kept := buffer[..n];
  }

  /**
    The relay's result as a function of the query and the upstream's
    behaviour. The query must be at least two bytes long (the slice at
    main.go:118) and so must the bytes read (the slice at main.go:153);
    otherwise the relay panics.
   */
  function Relay(query: seq<Byte>, up: Upstream): (r: RelayResult)
    ensures r.Answer? <==>
      && 2 <= |query| && up.dialOk && up.hostnameOk && up.writeOk
      && up.response.Delivered? && 2 <= |up.response.bytes|
    ensures r.Answer? ==>
      && 2 <= |r.response| <= MaxMsgSize
      && r.response <= up.response.bytes
      && (|up.response.bytes| <= MaxMsgSize ==> r.response == up.response.bytes)
    ensures r.Panicked? <==>
      |query| < 2 || (up.dialOk && up.hostnameOk && up.writeOk && up.response.Delivered? && |up.response.bytes| < 2)
  {
    if |query| < 2 then Panicked
    else if !up.dialOk then Failed(ConnectFailed)
    else if !up.hostnameOk then Failed(CertificateInvalid)
    else if !up.writeOk then Failed(WriteFailed)
    else
      match up.response
      case ReadError => Failed(ReadFailed)
      case Delivered(bytes) =>
        var kept := ReadPrefix(bytes);
        if |kept| < 2 then Panicked else Answer(kept)
  }

  /**
    `sendTcpDnsQuery`: dial, verify the hostname, write the query, read the
    response, close; every failure returns at once. `trace` lists the calls
    made on the upstream connection.
   */
  method SendTcpDnsQuery(query: seq<Byte>, up: Upstream) returns (result: RelayResult, trace: seq<Step>)
    ensures result == Relay(query, up)
    // the calls are made in order, none is skipped, none is repeated
    ensures trace <= Exchange(query)
    // a failing call is the last one made
    ensures result.Failed? ==> trace == Exchange(query)[..StepsBefore(result.error)]
    // the connection is closed only after a complete exchange
    ensures result.Answer? <==> trace == Exchange(query)
    // a query too short to slice panics before anything is sent
    ensures |query| < 2 ==> trace == []
    // a read too short to slice panics after the read, with the connection left open
    ensures result.Panicked? && 2 <= |query| ==> trace == Exchange(query)[..4]
    // an unverified server is never sent the query and never read from
    ensures !up.hostnameOk ==> forall s | s in trace :: !s.WriteQuery? && !s.ReadResponse?
  {
    trace := [];
    if |query| < 2 {
      return Panicked, trace;
    }
    trace := trace + [Dial];
    if !up.dialOk {
      return Failed(ConnectFailed), trace;
    }
    trace := trace + [VerifyHostname];
    if !up.hostnameOk {
      return Failed(CertificateInvalid), trace;
    }
    trace := trace + [WriteQuery(query)];
    if !up.writeOk {
      return Failed(WriteFailed), trace;
    }
    trace := trace + [ReadResponse];
    if up.response.ReadError? {
      return Failed(ReadFailed), trace;
    }
    var response := ReadOnce(up.response.bytes);
    if |response| < 2 {
      return Panicked, trace;
    }
    trace := trace + [Close];
    result := Answer(response);
  }
}
