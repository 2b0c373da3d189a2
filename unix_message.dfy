/** `readUnixMessage`: read a socket into fresh 6144-byte buffers until a
    read leaves a zero byte in its buffer or reports end of stream. The
    socket is a sequence of read results; TextDecoder is a parameter. */
module UnixMessage {

  newtype byte = x: int | 0 <= x < 256

  const BufferSize := 1024 * 6

  /** One `conn.read(buffer)`: `null` at end of stream, or the bytes it put
      at the start of the buffer (never more than the buffer holds). */
  datatype ReadResult = Eof | Bytes(data: seq<byte>)

  predicate FitsBuffer(r: ReadResult) {
    r.Bytes? ==> |r.data| <= BufferSize
  }

  function Zeros(n: nat): (r: seq<byte>)
    ensures |r| == n && forall i :: 0 <= i < n ==> r[i] == 0
  {
    if n == 0 then [] else Zeros(n - 1) + [0]
  }

  /** The buffer after the read: a fresh zero-filled array with the bytes
      read at its start. */
  function BufferAfter(r: ReadResult): (b: seq<byte>)
    requires FitsBuffer(r)
    ensures |b| == BufferSize
  {
    match r
    case Eof => Zeros(BufferSize)
    case Bytes(data) => data + Zeros(BufferSize - |data|)
  }

  /** `buffer.every(value => value !== 0)` */
  predicate IsBufferFull(b: seq<byte>) {
    forall i :: 0 <= i < |b| ==> b[i] != 0
  }

  /** The loop goes on after this read. */
  predicate Continues(r: ReadResult)
    requires FitsBuffer(r)
  {
    r.Bytes? && IsBufferFull(BufferAfter(r))
  }

  /** What `bytesRead || 0` adds. */
  function Count(r: ReadResult): nat {
    match r
    case Eof => 0
    case Bytes(data) => |data|
  }

  /** The decoded chunk appended for the read (nothing for `null`). */
  function Chunk(r: ReadResult, decode: seq<byte> -> string): string {
    match r
    case Eof => ""
    case Bytes(data) => decode(data)
  }

  predicate AllFit(stream: seq<ReadResult>) {
    forall i :: 0 <= i < |stream| ==> FitsBuffer(stream[i])
  }

  /** Some read ends the loop, so the call returns. */
  predicate Terminates(stream: seq<ReadResult>)
    requires AllFit(stream)
  {
    exists k :: 0 <= k < |stream| && !Continues(stream[k])
  }

  /** The index of the read that ends the loop. */
  function StopIndex(stream: seq<ReadResult>): (k: nat)
    requires AllFit(stream) && Terminates(stream)
    ensures k < |stream| && !Continues(stream[k])
    ensures forall j :: 0 <= j < k ==> Continues(stream[j])
  {
    if !Continues(stream[0]) then 0
    else
      TerminatesTail(stream);
      1 + StopIndex(stream[1..])
  }

  /** A read that goes on leaves a stream that still ends. */
  lemma TerminatesTail(stream: seq<ReadResult>)
    requires AllFit(stream) && Terminates(stream) && Continues(stream[0])
    ensures AllFit(stream[1..]) && Terminates(stream[1..])
  {
    var k :| 0 <= k < |stream| && !Continues(stream[k]);
    assert stream[1..][k - 1] == stream[k];
  }

  /** The message assembled from a prefix of stream. */
  function Message(stream: seq<ReadResult>, decode: seq<byte> -> string): string
    decreases |stream|
  {
    if |stream| == 0 then "" else Message(stream[..|stream| - 1], decode) + Chunk(stream[|stream| - 1], decode)
  }

  /** `totalBytesRead` over a prefix of stream. */
  function Total(stream: seq<ReadResult>): nat
    decreases |stream|
  {
    if |stream| == 0 then 0 else Total(stream[..|stream| - 1]) + Count(stream[|stream| - 1])
  }

  /** The buffer-full rule: the loop continues exactly after a read that put
      6144 non-zero bytes in the buffer. */
  lemma ContinuesIff(r: ReadResult)
    requires FitsBuffer(r)
    ensures Continues(r) <==> r.Bytes? && |r.data| == BufferSize && forall i :: 0 <= i < |r.data| ==> r.data[i] != 0
  {
    if r.Bytes? {
      var b := BufferAfter(r);
      if |r.data| < BufferSize {
        assert b[|r.data|] == 0;
      } else {
        assert b == r.data;
      }
    }
  }

  /** A short read, or one containing a zero byte, ends the loop. */
  lemma ShortOrZeroStops(r: ReadResult)
    requires FitsBuffer(r)
    requires r.Bytes? && (|r.data| < BufferSize || exists i :: 0 <= i < |r.data| && r.data[i] == 0)
    ensures !Continues(r)
  {
    ContinuesIff(r);
  }

  /** A payload of exactly 6144 non-zero bytes needs a further read before
      the call returns. */
  lemma ExactBufferNeedsAnotherRead(stream: seq<ReadResult>)
    requires AllFit(stream) && Terminates(stream)
    requires |stream| > 0 && stream[0].Bytes? && |stream[0].data| == BufferSize
    requires forall i :: 0 <= i < BufferSize ==> stream[0].data[i] != 0
    ensures StopIndex(stream) >= 1
  {
    ContinuesIff(stream[0]);
  }

  /** The loop itself: one fresh buffer per read. Returns the message, the
      running `totalBytesRead` and how many reads were consumed. */
  method ReadUnixMessage(stream: seq<ReadResult>, decode: seq<byte> -> string)
      returns (msg: string, totalBytesRead: nat, used: nat)
    requires AllFit(stream) && Terminates(stream)
    ensures used == StopIndex(stream) + 1
    ensures msg == Message(stream[..used], decode)
    ensures totalBytesRead == Total(stream[..used])
  {
    msg, totalBytesRead, used := "", 0, 0;
    var stop := StopIndex(stream);
    while true
      invariant used <= stop
      invariant msg == Message(stream[..used], decode)
      invariant totalBytesRead == Total(stream[..used])
      decreases stop - used
    {
      var r := stream[used];
      var buffer := Read(r);
      PrefixStep(stream, used, decode);
      StopStep(stream, used, stop);
      totalBytesRead := totalBytesRead + Count(r);
      if r.Bytes? {
        msg := msg + Chunk(r, decode);
      }
      used := used + 1;
      var full := IsFull(buffer);
      if !full || r.Eof? {
        return;
      }
    }
  }

  /** One more read appends its chunk and its count. */
  lemma PrefixStep(stream: seq<ReadResult>, used: nat, decode: seq<byte> -> string)
    requires used < |stream|
    ensures Message(stream[..used + 1], decode) == Message(stream[..used], decode) + Chunk(stream[used], decode)
    ensures Total(stream[..used + 1]) == Total(stream[..used]) + Count(stream[used])
  {
    assert stream[..used + 1][..used] == stream[..used];
  }

  /** Before the stopping read every read goes on, and that read does not. */
  lemma StopStep(stream: seq<ReadResult>, used: nat, stop: nat)
    requires AllFit(stream) && Terminates(stream) && stop == StopIndex(stream) && used <= stop
    ensures Continues(stream[used]) <==> used < stop
  {
  }

  /** A fresh zero-filled buffer, and the read copying its bytes in. */
  method Read(r: ReadResult) returns (buffer: array<byte>)
    requires FitsBuffer(r)
    ensures fresh(buffer) && buffer[..] == BufferAfter(r)
  {
    buffer := new byte[BufferSize](_ => 0);
    match r {
      case Bytes(data) =>
        forall j | 0 <= j < |data| {
          buffer[j] := data[j];
        }
      case Eof =>
    }
    assert forall j :: 0 <= j < BufferSize ==> buffer[j] == BufferAfter(r)[j];
  }

  /** `isBufferFull` on the array. */
  method IsFull(buffer: array<byte>) returns (full: bool)
    ensures full == IsBufferFull(buffer[..])
  {
    var i := 0;
    while i < buffer.Length
      invariant 0 <= i <= buffer.Length
      invariant forall j :: 0 <= j < i ==> buffer[j] != 0
    {
      if buffer[i] == 0 {
        return false;
      }
      i := i + 1;
    }
    return true;
  }
}
