/**
 * The part of a PSR-7 body stream the handler touches: `write` and
 * `rewind`. A stream is mutable, so it is a class; `Body` is the value of
 * its state, which a request keeps once the stream is attached. The stream
 * also records the calls made on it, in order.
 */
module Streams {

  /** A call on a stream: `write(data)` or `rewind()`. */
  datatype StreamCall = WriteCall(data: string) | RewindCall

  /** The state of a stream: its contents and the position of the next read or write. */
  datatype Body = Body(contents: string, position: nat)

  /** The body a freshly created request carries: empty, positioned at the start. */
  const Empty: Body := Body("", 0)

  predicate WellFormed(b: Body) { b.position <= |b.contents| }

  /** What a reader gets from the stream: everything from the position on. */
  function Remaining(b: Body): string
    requires WellFormed(b)
  {
    b.contents[b.position..]
  }

  /** `write(data)`: `data` overwrites the stream from the position on, and the position moves past it. */
  function Written(b: Body, data: string): (r: Body)
    requires WellFormed(b)
    ensures WellFormed(r)
    ensures r.position == b.position + |data|
    ensures r.contents[..b.position] == b.contents[..b.position]
    ensures r.contents[b.position..r.position] == data
    ensures |r.contents| == if r.position < |b.contents| then |b.contents| else r.position
    ensures r.position < |b.contents| ==> r.contents[r.position..] == b.contents[r.position..]
  {
    var end := b.position + |data|;
    Body(b.contents[..b.position] + data + (if end < |b.contents| then b.contents[end..] else ""), end)
  }

  /** `rewind()`: the position goes back to the start; the contents stay. */
  function Rewound(b: Body): (r: Body)
    ensures WellFormed(r) && r.contents == b.contents
    ensures Remaining(r) == r.contents
  {
    Body(b.contents, 0)
  }

  /**
   * Writing a body into an empty stream and rewinding it leaves a stream
   * from which a reader gets exactly that body; without the rewind a
   * reader would get nothing.
   */
  lemma WriteThenRewind(data: string)
    ensures Remaining(Written(Empty, data)) == ""
    ensures Rewound(Written(Empty, data)) == Body(data, 0)
    ensures Remaining(Rewound(Written(Empty, data))) == data
  {
    var w := Written(Empty, data);
    assert w.contents == w.contents[0..w.position];
  }

  class Stream {
    var contents: string
    var position: nat
    /** Every call made on this stream, oldest first. */
    var calls: seq<StreamCall>

    ghost predicate Valid()
      reads this
    {
      position <= |contents|
    }

    /** The stream's state as a value. */
    function State(): (b: Body)
      reads this
    {
      Body(contents, position)
    }

    /** The stream a request hands out from `getBody()`, in the state the request holds. */
    constructor (b: Body)
      requires WellFormed(b)
      ensures Valid() && State() == b
      ensures calls == []
    {
      contents := b.contents;
      position := b.position;
      calls := [];
    }

    /** Writes `data` at the position; returns the number of characters written. */
    method Write(data: string) returns (n: nat)
      requires Valid()
      modifies this
      ensures Valid()
      ensures State() == Written(old(State()), data)
      ensures n == |data|
      ensures calls == old(calls) + [WriteCall(data)]
    {
      var end := position + |data|;
      var tail := if end < |contents| then contents[end..] else "";
      contents := contents[..position] + data + tail;
      position := end;
      n := |data|;
      calls := calls + [WriteCall(data)];
    }

    /** Moves the position back to the start. */
    method Rewind()
      requires Valid()
      modifies this
      ensures Valid()
      ensures State() == Rewound(old(State()))
      ensures calls == old(calls) + [RewindCall]
    {
      position := 0;
      calls := calls + [RewindCall];
    }
  }
}
