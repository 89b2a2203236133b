/**
  Bytes, the receive-buffer size, and the reference framing of a DNS message
  on a stream transport: a two-byte big-endian length field followed by the
  message (section 4.2.2 of RFC 1035, reused by DNS over TLS in section 3.3
  of RFC 7858). The proxy's own framing is compared against this one.
 */
module Wire {

  /** A Go `byte`: an unsigned 8-bit value. */
  newtype Byte = b: int | 0 <= b < 256

  /** `dns.MaxMsgSize` of the miekg/dns package, the size of every receive buffer. */
  const MaxMsgSize: nat := 65535

  /** One more than the largest value of the 16-bit length field. */
  const LengthFieldRange: nat := 0x1_0000

  function Min(a: nat, b: nat): nat
  {
    if a <= b then a else b
  }

  /** The value a two-byte big-endian length field denotes. */
  function DecodeLength(field: seq<Byte>): (n: nat)
    requires |field| == 2
    ensures n < LengthFieldRange
  {
    field[0] as nat * 256 + field[1] as nat
  }

  /** The two-byte big-endian length field for a message of `n` bytes. */
  function LengthField(n: nat): (field: seq<Byte>)
    requires n < LengthFieldRange
    ensures |field| == 2 && DecodeLength(field) == n
  {
    [(n / 256) as Byte, (n % 256) as Byte]
  }

  /** Decoding and encoding the field are inverse: no two lengths share a field. */
  lemma LengthFieldOfDecoded(field: seq<Byte>)
    requires |field| == 2
    ensures LengthField(DecodeLength(field)) == field
  {
  }

  /** `f` is a well-formed framed message: its length field counts exactly the bytes after it. */
  predicate IsFramed(f: seq<Byte>)
  {
    |f| >= 2 && DecodeLength(f[..2]) == |f| - 2
  }

  /** The reference framing: the length field of `m`, then `m`. */
  function Frame(m: seq<Byte>): (f: seq<Byte>)
    requires |m| < LengthFieldRange
    ensures IsFramed(f) && |f| == |m| + 2 && f[2..] == m
  {
    LengthField(|m|) + m
  }

  /** A well-formed framed message is the framing of what follows its length field. */
  lemma FramedIsFrameOfPayload(f: seq<Byte>)
    requires IsFramed(f)
    ensures |f[2..]| < LengthFieldRange && Frame(f[2..]) == f
  {
  }
}
