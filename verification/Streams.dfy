/** Byte streams: a response body, a full read of a preview, and the replay of the preview before the rest. */
module Streams {

  newtype Byte = x: int | 0 <= x < 256

  type Bytes = seq<Byte>

  function Flatten(chunks: seq<Bytes>): Bytes {
    if chunks == [] then [] else chunks[0] + Flatten(chunks[1..])
  }

  /** What a read reports beside its data. */
  datatype End = More | EndOfFile | Failure

  /**
   * A body as the sequence of its next reads. A chunk larger than the reader's buffer takes several
   * reads, an empty chunk is a read without data. After the chunks comes the end, once `eager` together
   * with the last data, and from then on at every read.
   */
  class Body {
    var chunks: seq<Bytes>
    const broken: bool
    const eager: bool

    constructor (chunks: seq<Bytes>, broken: bool, eager: bool)
      ensures this.chunks == chunks && this.broken == broken && this.eager == eager
    {
      this.chunks := chunks;
      this.broken := broken;
      this.eager := eager;
    }

    ghost function Rest(): Bytes
      reads this
    {
      Flatten(chunks)
    }

    function Last(): End {
      if broken then Failure else EndOfFile
    }

    ghost function Size(): nat
      reads this
    {
      |Flatten(chunks)| + |chunks|
    }

    method Read(k: nat) returns (data: Bytes, end: End)
      requires k > 0
      modifies this
      ensures |data| <= k
      ensures data + Rest() == old(Rest())
      ensures end != More ==> chunks == [] && end == Last()
      ensures end == More ==> Size() < old(Size())
      ensures Size() <= old(Size())
    {
      if chunks == [] {
        return [], Last();
      }
      var next := chunks[0];
      if |next| > k {
        ghost var tail := chunks[1..];
        chunks := [next[k..]] + chunks[1..];
        assert chunks[0] == next[k..] && chunks[1..] == tail;
        assert next == next[..k] + next[k..];
        return next[..k], More;
      }
      chunks := chunks[1..];
      return next, if chunks == [] && eager then Last() else More;
    }
  }

  /** Reads until `k` bytes are there or the body ends; the end itself is dropped. */
  method ReadFull(body: Body, k: nat) returns (preview: Bytes)
    modifies body
    ensures preview + body.Rest() == old(body.Rest())
    ensures |preview| <= k
    ensures |preview| < k ==> body.chunks == []
    ensures body.Size() <= old(body.Size())
  {
    preview := [];
    var end := More;
    while |preview| < k && end == More
      invariant |preview| <= k
      invariant preview + body.Rest() == old(body.Rest())
      invariant end != More ==> body.chunks == []
      invariant body.Size() <= old(body.Size())
      decreases end == More, body.Size()
    {
      var data;
      ghost var before := preview;
      ghost var rest := body.Rest();
      data, end := body.Read(k - |preview|);
      preview := preview + data;
      assert before + (data + body.Rest()) == (before + data) + body.Rest();
    }
  }

  /** The bytes already read, then the rest of the body. */
  class Replay {
    var head: Bytes
    const body: Body
    var left: nat

    constructor (head: Bytes, body: Body)
      ensures this.head == head && this.body == body && this.left == 2
    {
      this.head := head;
      this.body := body;
      this.left := 2;
    }

    /** `left` counts the readers not yet finished: the preview and the body, the body, or none. */
    ghost predicate Valid()
      reads this, body
    {
      && left <= 2
      && (left < 2 ==> head == [])
      && (left == 0 ==> body.chunks == [] && !body.broken)
    }

    ghost function Rest(): Bytes
      reads this, body
    {
      head + body.Rest()
    }

    ghost function Size(): nat
      reads this, body
    {
      |head| + body.Size()
    }

    method Read(k: nat) returns (data: Bytes, end: End)
      requires Valid() && k > 0
      modifies this, body
      ensures Valid()
      ensures |data| <= k
      ensures data + Rest() == old(Rest())
      ensures end != More ==> Rest() == [] && end == body.Last()
      ensures end == More ==> Size() < old(Size())
    {
      if left == 2 {
        if head != [] {
          var n := if |head| < k then |head| else k;
          ghost var was, rest := head, body.Rest();
          data := head[..n];
          head := head[n..];
          assert data + (head + rest) == was + rest;
          return data, More;
        }
        left := 1;
      }
      if left == 1 {
        data, end := body.Read(k);
        if end == EndOfFile {
          left := 0;
        }
        return;
      }
      return [], EndOfFile;
    }
  }
}
