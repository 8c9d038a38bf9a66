/** Reading a request's head ahead of the websocket handshake, and replaying it to the handshake. */
module HttpProbe {
  import opened Text

  const MAX_REQUEST_HEAD := 16 * 1024
  const CHUNK := 2048

  /** Somewhere in `head` stands the empty line that ends a request's head. */
  predicate Terminated(head: seq<byte>) {
    exists i :: 0 <= i <= |head| - 4 && head[i..][..4] == [13, 10, 13, 10]
  }

  /** What may be read ahead of a stream that holds `bytes`: a prefix that ends with the terminator,
      at the end of the stream or past the limit, and did not one read before. */
  ghost predicate ReadAhead(bytes: seq<byte>, head: seq<byte>) {
    && head <= bytes && |head| < MAX_REQUEST_HEAD + CHUNK
    && (Terminated(head) || head == bytes || |head| >= MAX_REQUEST_HEAD)
    && (head != [] ==> exists n :: OneReadBefore(head, n))
  }

  predicate OneReadBefore(head: seq<byte>, n: nat) {
    |head| - CHUNK <= n < |head| && n < MAX_REQUEST_HEAD && !Terminated(head[..n])
  }

  /** A connection that delivers `rest` in pieces of any size; `good` reads succeed before one fails.
      An empty piece means the end of the stream. */
  class ByteStream {
    var rest: seq<byte>
    var good: nat

    constructor (bytes: seq<byte>, good: nat)
      ensures rest == bytes && this.good == good
    {
      rest, this.good := bytes, good;
    }

    /** One read into a buffer of `capacity` bytes: how much comes at once is not determined. */
    method Read(capacity: nat) returns (piece: Option<seq<byte>>)
      modifies this
      ensures piece.None? <==> old(good) == 0
      ensures piece.None? ==> rest == old(rest) && good == old(good)
      ensures piece.Some? ==> good == old(good) - 1
      ensures piece.Some? ==> old(rest) == piece.value + rest && |piece.value| <= capacity
      ensures piece == Some([]) && capacity > 0 ==> rest == []
    {
      if good == 0 {
        return None;
      }
      good := good - 1;
      var n: nat :| n <= |rest| && n <= capacity && (n == 0 ==> capacity == 0 || rest == []);
      piece := Some(rest[..n]);
      rest := rest[n..];
    }
  }

  /** Nothing that is read ahead is lost, and reading ahead stops only at the terminator, at the end
      of the stream or at the limit; it never asks for more once one of them is there. It gives
      nothing only when a read failed, and reads no more often than there are bytes and an end. */
  method ReadRequestHead(stream: ByteStream) returns (head: Option<seq<byte>>)
    modifies stream
    ensures head.Some? ==> ReadAhead(old(stream.rest), head.value)
    ensures head.Some? ==> old(stream.rest) == head.value + stream.rest
    ensures head.None? ==> stream.good == 0 && old(stream.good) <= |old(stream.rest)|
    ensures head.Some? ==> old(stream.good) <= stream.good + |head.value| + 1
  {
    var read: seq<byte> := [];
    ghost var before := 0;
    while !Terminated(read) && |read| < MAX_REQUEST_HEAD
      invariant old(stream.rest) == read + stream.rest
      invariant |read| < MAX_REQUEST_HEAD + CHUNK && old(stream.good) <= stream.good + |read|
      invariant read != [] ==> OneReadBefore(read, before)
      decreases MAX_REQUEST_HEAD - |read|
    {
      var piece := stream.Read(CHUNK);
      if piece.None? {
        return None;
      }
      if piece.value == [] {
        break;
      }
      before := |read|;
      assert (read + piece.value)[..before] == read;
      read := read + piece.value;
    }
    head := Some(read);
  }

  /** The connection as the handshake sees it: first what was read ahead, then the rest. */
  class ReplayStream {
    const prefix: seq<byte>
    var position: nat
    const inner: ByteStream

    ghost predicate Valid()
      reads this
    {
      position <= |prefix|
    }

    /** Everything that is still to come. */
    ghost function Remaining(): seq<byte>
      requires Valid()
      reads this, inner
    {
      prefix[position..] + inner.rest
    }

    constructor (prefix: seq<byte>, inner: ByteStream)
      ensures Valid() && Remaining() == prefix + inner.rest
      ensures this.inner == inner && this.prefix == prefix
    {
      this.prefix, position, this.inner := prefix, 0, inner;
    }

    method PollRead(capacity: nat) returns (piece: Option<seq<byte>>)
      requires Valid()
      modifies this`position, inner
      ensures Valid()
      ensures piece.None? ==> Remaining() == old(Remaining()) && inner.good == old(inner.good) == 0
      ensures piece.Some? && piece.value != [] ==>
                old(inner.good) + |inner.rest| <= inner.good + |old(inner.rest)|
      ensures piece.Some? ==> old(Remaining()) == piece.value + Remaining() && |piece.value| <= capacity
      ensures piece == Some([]) && capacity > 0 ==> Remaining() == []
    {
      if position < |prefix| {
        var left := |prefix| - position;
        var n := if capacity <= left then capacity else left;
        piece := Some(prefix[position..position + n]);
        assert prefix[position..] == piece.value + prefix[position + n..];
        position := position + n;
        return;
      }
      piece := inner.Read(capacity);
    }
  }

  /** Why a consumer stopped. */
  datatype Stop = OutOfBuffers | StreamEnded | ReadFailed

  predicate AllPositive(sizes: seq<nat>) { forall n :: n in sizes ==> n > 0 }

  lemma Regroup(a: seq<byte>, b: seq<byte>, c: seq<byte>)
    ensures a + (b + c) == a + b + c
  {
  }

  lemma PositiveAt(sizes: seq<nat>, i: nat)
    requires i < |sizes|
    ensures AllPositive(sizes) ==> sizes[i] > 0
  {
    assert sizes[i] in sizes;
  }

  /** A consumer that reads with buffers of the given sizes until they run out, the stream fails or
      the stream ends. */
  method Consume(stream: ReplayStream, sizes: seq<nat>) returns (received: seq<byte>, stop: Stop)
    requires stream.Valid()
    modifies stream`position, stream.inner
    ensures stream.Valid() && old(stream.Remaining()) == received + stream.Remaining()
    ensures stop.StreamEnded? ==> stream.Remaining() == []
    ensures stop.ReadFailed? ==> stream.inner.good == 0
    ensures AllPositive(sizes) && stop.OutOfBuffers? ==> |received| >= |sizes|
    ensures AllPositive(sizes) && stop.ReadFailed? ==>
              old(stream.inner.good) <= |old(stream.inner.rest)|
  {
    hide AllPositive, ReplayStream.Remaining;
    received, stop := [], OutOfBuffers;
    for i := 0 to |sizes|
      invariant stream.Valid() && old(stream.Remaining()) == received + stream.Remaining()
      invariant AllPositive(sizes) ==>
        && |received| >= i
        && old(stream.inner.good) + |stream.inner.rest| <= stream.inner.good + |old(stream.inner.rest)|
    {
      var piece := stream.PollRead(sizes[i]);
      PositiveAt(sizes, i);
      if piece.None? {
        return received, ReadFailed;
      }
      Regroup(received, piece.value, stream.Remaining());
      received := received + piece.value;
      if piece.value == [] && sizes[i] > 0 {
        return received, StreamEnded;
      }
    }
  }

  /** Reading the head ahead and replaying it is the identity: for every chunking of the incoming
      stream and every sequence of buffer sizes, the consumer receives the original bytes, in order,
      and all of them when it is told that the stream has ended. With buffers that have room it is
      told so after as many of them as there are bytes, and one more, unless reading fails; and
      reading fails only within as many reads as there are bytes, and one more. */
  method ReadThenReplay(stream: ByteStream, sizes: seq<nat>)
    returns (received: seq<byte>, stop: Stop)
    modifies stream
    ensures received <= old(stream.rest)
    ensures stop.StreamEnded? ==> received == old(stream.rest)
    ensures stop.ReadFailed? ==> stream.good == 0
    ensures AllPositive(sizes) && stop.OutOfBuffers? ==> |received| >= |sizes|
    ensures AllPositive(sizes) && |sizes| > |old(stream.rest)| ==> !stop.OutOfBuffers?
    ensures AllPositive(sizes) && old(stream.good) > |old(stream.rest)| + 1 ==> !stop.ReadFailed?
  {
    var head := ReadRequestHead(stream);
    if head.None? {
      return [], ReadFailed;
    }
    var replay := new ReplayStream(head.value, stream);
    received, stop := Consume(replay, sizes);
  }
}
