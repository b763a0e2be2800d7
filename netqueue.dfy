/**
 * Model of netqueue/queue.go: bounded message and error queues, and the two
 * worker loops that bridge them to a byte stream.
 *
 * The gob codec and the io.Writer / io.Reader are abstracted as oracles:
 * the writer's k-th encode attempt on message m yields `encode(k, m)`, and
 * the reader's k-th decode call yields the k-th element of a stream of
 * outcomes (io.EOF once the stream is exhausted).  Goroutines are not
 * modelled: a worker runs to completion when called, and a send that would
 * block in Go is excluded by a precondition.
 */
module NetQueue {
  import opened Wrappers

  /** Capacity of every channel made by ChannelFromWriter and ChannelFromReader. */
  const ChanSize: nat := 32

  /** An action and its positional arguments. */
  datatype Message = Message(action: string, args: seq<string>)

  /** An error value; `EOF` stands for io.EOF, the clean end of a stream. */
  datatype Error = EOF | Err(reason: string)

  type Bytes = seq<bv8>

  /** Outcome of encoding one message and writing it to the sink. */
  datatype EncodeOutcome = Encoded(record: Bytes) | EncodeFailed(err: Error)

  /** Outcome of one decode call on the source. */
  datatype DecodeOutcome = Decoded(msg: Message) | DecodeFailed(err: Error)

  /** The writer's codec and sink: attempt number and message to outcome. */
  type Encoder = (nat, Message) -> EncodeOutcome

  /** What a receive returns: the oldest item, or the "closed" signal. */
  datatype Received<T> = Item(value: T) | Closed

  /** A buffered Go channel: a FIFO buffer of bounded capacity and a closed flag. */
  class Queue<T> {
    const cap: nat
    var buf: seq<T>
    var closed: bool

    ghost predicate Valid()
      reads this
    {
      |buf| <= cap
    }

    /** An open, empty queue of the given capacity, as `make(chan T, capacity)` gives. */
    ghost predicate IsNew(capacity: nat)
      reads this
    {
      Valid() && cap == capacity && buf == [] && !closed
    }

    constructor (capacity: nat)
      ensures IsNew(capacity)
    {
      cap := capacity;
      buf := [];
      closed := false;
    }

    /** `ch <- x`: needs an open queue (Go panics otherwise) with free space (Go blocks otherwise). */
    method Send(x: T)
      requires Valid() && !closed && |buf| < cap
      modifies this
      ensures Valid() && !closed
      ensures buf == old(buf) + [x]
    {
      buf := buf + [x];
    }

    /** `x, ok := <-ch`: needs an item or a closed queue (Go blocks otherwise). */
    method Receive() returns (r: Received<T>)
      requires Valid() && (buf != [] || closed)
      modifies this
      ensures Valid() && closed == old(closed)
      ensures old(buf) != [] ==> r == Item(old(buf)[0]) && buf == old(buf)[1..]
      ensures old(buf) == [] ==> r == Closed && buf == []
    {
      if buf != [] {
        r := Item(buf[0]);
        buf := buf[1..];
      } else {
        r := Closed;
      }
    }

    /** `close(ch)`: a second close panics in Go, so only an open queue may be closed. */
    method Close()
      requires Valid() && !closed
      modifies this
      ensures Valid() && closed
      ensures buf == old(buf)
    {
      closed := true;
    }

    /** A consumer's `for x := range ch` over a closed queue: every buffered item, in order. */
    method Drain() returns (items: seq<T>)
      requires Valid() && closed
      modifies this
      ensures Valid() && closed
      ensures items == old(buf) && buf == []
    {
      items := [];
      while true
        invariant Valid() && closed
        invariant items + buf == old(buf)
        decreases |buf|
      {
        var r := Receive();
        if r.Closed? {
          break;
        }
        items := items + [r.value];
      }
    }
  }

  /** The two channels ChannelFromWriter makes, before the writer worker starts. */
  method ChannelFromWriter() returns (msgCh: Queue<Message>, errCh: Queue<Error>)
    ensures fresh(msgCh) && fresh(errCh) && msgCh as object != errCh
    ensures msgCh.IsNew(ChanSize) && errCh.IsNew(ChanSize)
  {
    msgCh := new Queue(ChanSize);
    errCh := new Queue(ChanSize);
  }

  /** The two channels ChannelFromReader makes, before the reader worker starts. */
  method ChannelFromReader() returns (msgCh: Queue<Message>, errCh: Queue<Error>)
    ensures fresh(msgCh) && fresh(errCh) && msgCh as object != errCh
    ensures msgCh.IsNew(ChanSize) && errCh.IsNew(ChanSize)
  {
    msgCh := new Queue(ChanSize);
    errCh := new Queue(ChanSize);
  }

  // ---------------------------------------------------------------------------
  // The writer

  /** The encoder seen from the k-th attempt on: attempt i of the shifted encoder is attempt i + k. */
  function Shift(encode: Encoder, k: nat): Encoder
  {
    (i: nat, m: Message) => encode(i + k, m)
  }

  /** The records the writer puts on the sink for `msgs`: one per successful encode, in order. */
  function Written(msgs: seq<Message>, encode: Encoder): seq<Bytes>
  {
    if msgs == [] then []
    else
      var n := |msgs| - 1;
      var outcome := encode(n, msgs[n]);
      Written(msgs[..n], encode) + (if outcome.Encoded? then [outcome.record] else [])
  }

  /** The errors the writer reports for `msgs`: one per failed encode, in order. */
  function WriteErrors(msgs: seq<Message>, encode: Encoder): seq<Error>
  {
    if msgs == [] then []
    else
      var n := |msgs| - 1;
      var outcome := encode(n, msgs[n]);
      WriteErrors(msgs[..n], encode) + (if outcome.EncodeFailed? then [outcome.err] else [])
  }

  /** The messages among `msgs` whose encode succeeded, in order. */
  function Sent(msgs: seq<Message>, encode: Encoder): seq<Message>
  {
    if msgs == [] then []
    else
      var n := |msgs| - 1;
      Sent(msgs[..n], encode) + (if encode(n, msgs[n]).Encoded? then [msgs[n]] else [])
  }

  /**
   * The writer worker `write`.  Runs once the producer has closed `ch`;
   * takes every buffered message in FIFO order, encodes it, reports each
   * failure on `errCh` and carries on, and closes `errCh` once `ch` is
   * drained.  Returns the records written to the sink.
   */
  method Write(ch: Queue<Message>, errCh: Queue<Error>, encode: Encoder) returns (written: seq<Bytes>)
    requires ch as object != errCh
    requires ch.Valid() && errCh.Valid()
    requires ch.closed && !errCh.closed
    requires |errCh.buf| + |WriteErrors(ch.buf, encode)| <= errCh.cap
    modifies ch, errCh
    ensures ch.Valid() && errCh.Valid()
    ensures ch.closed && ch.buf == []
    ensures errCh.closed
    ensures errCh.buf == old(errCh.buf) + WriteErrors(old(ch.buf), encode)
    ensures written == Written(old(ch.buf), encode)
  {
    ghost var msgs := ch.buf;
    ghost var errs0 := errCh.buf;
    written := [];
    var attempt: nat := 0;
    while true
      invariant ch.Valid() && errCh.Valid()
      invariant ch.closed && !errCh.closed
      invariant attempt <= |msgs| && ch.buf == msgs[attempt..]
      invariant written == Written(msgs[..attempt], encode)
      invariant errCh.buf == errs0 + WriteErrors(msgs[..attempt], encode)
      invariant |errs0| + |WriteErrors(msgs, encode)| <= errCh.cap
      decreases |ch.buf|
    {
      var r := ch.Receive();
      if r.Closed? {
        break;
      }
      assert r.value == msgs[attempt];
      assert msgs[attempt..][1..] == msgs[attempt + 1..];
      assert msgs[..attempt + 1][..attempt] == msgs[..attempt];
      WriteErrorsPrefix(msgs, attempt + 1, encode);
      var outcome := encode(attempt, r.value);
      match outcome {
        case Encoded(record) =>
          written := written + [record];
        case EncodeFailed(e) =>
          errCh.Send(e);
      }
      attempt := attempt + 1;
    }
    assert msgs[..attempt] == msgs;
    errCh.Close();
  }

  /** Writing `a + b` is writing `a`, then writing `b`: a failed encode never stops the writer. */
  lemma {:induction false} WriteSplit(a: seq<Message>, b: seq<Message>, encode: Encoder)
    ensures Written(a + b, encode) == Written(a, encode) + Written(b, Shift(encode, |a|))
    ensures WriteErrors(a + b, encode) == WriteErrors(a, encode) + WriteErrors(b, Shift(encode, |a|))
    ensures Sent(a + b, encode) == Sent(a, encode) + Sent(b, Shift(encode, |a|))
  {
    if b == [] {
      assert a + b == a;
    } else {
      var n := |b| - 1;
      WriteSplit(a, b[..n], encode);
      assert (a + b)[..|a| + n] == a + b[..n];
      assert (a + b)[|a| + n] == b[n];
    }
  }

  /** The writer reports no more errors for a prefix of its input than for the whole. */
  lemma WriteErrorsPrefix(msgs: seq<Message>, k: nat, encode: Encoder)
    requires k <= |msgs|
    ensures |WriteErrors(msgs[..k], encode)| <= |WriteErrors(msgs, encode)|
  {
    WriteSplit(msgs[..k], msgs[k..], encode);
    assert msgs[..k] + msgs[k..] == msgs;
  }

  /** Every message is attempted exactly once: it yields either one record or one error. */
  lemma {:induction false} WriteAccounts(msgs: seq<Message>, encode: Encoder)
    ensures |Written(msgs, encode)| == |Sent(msgs, encode)|
    ensures |Sent(msgs, encode)| + |WriteErrors(msgs, encode)| == |msgs|
  {
    if msgs != [] {
      WriteAccounts(msgs[..|msgs| - 1], encode);
    }
  }

  /** With no failing encode the writer reports nothing and puts every message on the sink. */
  lemma {:induction false} CleanWrite(msgs: seq<Message>, encode: Encoder)
    requires forall i :: 0 <= i < |msgs| ==> encode(i, msgs[i]).Encoded?
    ensures WriteErrors(msgs, encode) == []
    ensures Sent(msgs, encode) == msgs
  {
    if msgs != [] {
      var n := |msgs| - 1;
      CleanWrite(msgs[..n], encode);
      assert msgs[..n] + [msgs[n]] == msgs;
    }
  }

  // ---------------------------------------------------------------------------
  // The reader

  /** What the k-th decode call returns: once the stream is exhausted, io.EOF. */
  function NextOutcome(stream: seq<DecodeOutcome>, k: nat): DecodeOutcome
  {
    if k < |stream| then stream[k] else DecodeFailed(EOF)
  }

  /** Index of the first decode call that fails. */
  function StopIndex(stream: seq<DecodeOutcome>): (k: nat)
    ensures k <= |stream|
    ensures forall j :: 0 <= j < k ==> stream[j].Decoded?
    ensures NextOutcome(stream, k).DecodeFailed?
  {
    if stream == [] || stream[0].DecodeFailed? then 0 else 1 + StopIndex(stream[1..])
  }

  /** The error that ends the reader's loop. */
  function StopError(stream: seq<DecodeOutcome>): Error
  {
    NextOutcome(stream, StopIndex(stream)).err
  }

  /** The messages of the maximal run of successful decodes at the head of the stream. */
  function Delivered(stream: seq<DecodeOutcome>): (r: seq<Message>)
    ensures |r| == StopIndex(stream)
    ensures forall j :: 0 <= j < |r| ==> stream[j] == Decoded(r[j])
  {
    if stream == [] || stream[0].DecodeFailed? then [] else [stream[0].msg] + Delivered(stream[1..])
  }

  /** The errors the reader reports: the stopping error unless it is io.EOF. */
  function Reported(stream: seq<DecodeOutcome>): seq<Error>
  {
    if StopError(stream) == EOF then [] else [StopError(stream)]
  }

  /**
   * The reader worker `read`.  Decodes until the first failure, sending each
   * decoded message to `ch`; sends the failure to `errCh` unless it is
   * io.EOF; then closes `ch` and `errCh`.  Returns the number of decode calls.
   */
  method Read(stream: seq<DecodeOutcome>, ch: Queue<Message>, errCh: Queue<Error>) returns (decodes: nat)
    requires ch as object != errCh
    requires ch.Valid() && errCh.Valid()
    requires !ch.closed && !errCh.closed
    requires |ch.buf| + StopIndex(stream) <= ch.cap
    requires |errCh.buf| + |Reported(stream)| <= errCh.cap
    modifies ch, errCh
    ensures ch.Valid() && errCh.Valid()
    ensures ch.closed && errCh.closed
    ensures ch.buf == old(ch.buf) + Delivered(stream)
    ensures errCh.buf == old(errCh.buf) + Reported(stream)
    ensures decodes == StopIndex(stream) + 1
  {
    ghost var msgs0, errs0 := ch.buf, errCh.buf;
    ghost var stop := StopIndex(stream);
    var err: Option<Error> := None;
    decodes := 0;
    while err == None
      invariant ch.Valid() && errCh.Valid()
      invariant !ch.closed && !errCh.closed
      invariant err == None ==> decodes <= stop && errCh.buf == errs0
      invariant err == None ==> ch.buf == msgs0 + Delivered(stream)[..decodes]
      invariant err != None ==> decodes == stop + 1 && err == Some(StopError(stream))
      invariant err != None ==> ch.buf == msgs0 + Delivered(stream)
      invariant err != None ==> errCh.buf == errs0 + Reported(stream)
      decreases stop + 1 - decodes
    {
      var outcome := NextOutcome(stream, decodes);
      match outcome {
        case Decoded(msg) =>
          assert Delivered(stream)[..decodes + 1] == Delivered(stream)[..decodes] + [msg];
          ch.Send(msg);
        case DecodeFailed(e) =>
          assert Delivered(stream)[..decodes] == Delivered(stream);
          err := Some(e);
          if e != EOF {
            errCh.Send(e);
          }
      }
      decodes := decodes + 1;
    }
    ch.Close();
    errCh.Close();
  }

  /** Nothing after the first failed decode matters: the reader never looks at it. */
  lemma {:induction false} ReadIgnoresRest(s: seq<DecodeOutcome>, t: seq<DecodeOutcome>)
    requires StopIndex(s) < |s|
    ensures StopIndex(s + t) == StopIndex(s)
    ensures Delivered(s + t) == Delivered(s)
    ensures Reported(s + t) == Reported(s)
  {
    if s[0].Decoded? {
      assert (s + t)[1..] == s[1..] + t;
      ReadIgnoresRest(s[1..], t);
    }
  }

  /** io.EOF ends the reader silently; any other stopping error is reported exactly once. */
  lemma ReadReportsAtMostOnce(stream: seq<DecodeOutcome>)
    ensures |Reported(stream)| <= 1
    ensures Reported(stream) == [] <==> StopIndex(stream) == |stream| || stream[StopIndex(stream)].err == EOF
  {
  }

  // ---------------------------------------------------------------------------
  // Writer and reader together

  /** The codec round-trips: a record written for message m decodes back to m. */
  ghost predicate Inverts(encode: Encoder, decode: Bytes -> DecodeOutcome)
  {
    forall i: nat, m: Message :: encode(i, m).Encoded? ==> decode(encode(i, m).record) == Decoded(m)
  }

  /** The reader's outcome stream over a transport that carries `records` and then ends cleanly. */
  function Transport(records: seq<Bytes>, decode: Bytes -> DecodeOutcome): seq<DecodeOutcome>
  {
    seq(|records|, j requires 0 <= j < |records| => decode(records[j]))
  }

  /** Record by record, what the writer puts on the sink decodes to the messages it sent. */
  lemma {:induction false} WrittenDecodesToSent(msgs: seq<Message>, encode: Encoder, decode: Bytes -> DecodeOutcome)
    requires Inverts(encode, decode)
    ensures |Written(msgs, encode)| == |Sent(msgs, encode)|
    ensures forall j :: 0 <= j < |Sent(msgs, encode)| ==>
      decode(Written(msgs, encode)[j]) == Decoded(Sent(msgs, encode)[j])
  {
    if msgs != [] {
      WrittenDecodesToSent(msgs[..|msgs| - 1], encode, decode);
    }
  }

  /**
   * Round trip: what the reader delivers from the writer's output is exactly
   * the messages whose encode succeeded, in order, and it reports no error.
   */
  lemma {:induction false} RoundTrip(msgs: seq<Message>, encode: Encoder, decode: Bytes -> DecodeOutcome)
    requires Inverts(encode, decode)
    ensures Delivered(Transport(Written(msgs, encode), decode)) == Sent(msgs, encode)
    ensures Reported(Transport(Written(msgs, encode), decode)) == []
  {
    WrittenDecodesToSent(msgs, encode, decode);
    var stream := Transport(Written(msgs, encode), decode);
    var d := Delivered(stream);
    assert forall j :: 0 <= j < |d| ==> Decoded(d[j]) == Decoded(Sent(msgs, encode)[j]);
  }

  /**
   * The scenario the package exists for: a producer sends `msgs` to a fresh
   * writer and closes it, the writer's sink is read back by a fresh reader,
   * and a consumer drains all three output queues.
   */
  method Exchange(msgs: seq<Message>, encode: Encoder, decode: Bytes -> DecodeOutcome)
    returns (received: seq<Message>, writeErrors: seq<Error>, readErrors: seq<Error>)
    requires |msgs| <= ChanSize
    requires Inverts(encode, decode)
    ensures received == Sent(msgs, encode)
    ensures writeErrors == WriteErrors(msgs, encode)
    ensures readErrors == []
    ensures (forall i :: 0 <= i < |msgs| ==> encode(i, msgs[i]).Encoded?) ==> received == msgs && writeErrors == []
  {
    var input, writerErrors := ChannelFromWriter();
    var i := 0;
    while i < |msgs|
      invariant i <= |msgs|
      invariant input.Valid() && input.cap == ChanSize && !input.closed
      invariant input.buf == msgs[..i]
      invariant writerErrors.IsNew(ChanSize)
    {
      input.Send(msgs[i]);
      i := i + 1;
    }
    assert msgs[..i] == msgs;
    input.Close();
    WriteAccounts(msgs, encode);
    var wire := Write(input, writerErrors, encode);
    writeErrors := writerErrors.Drain();

    var output, readerErrors := ChannelFromReader();
    RoundTrip(msgs, encode, decode);
    var stream := Transport(wire, decode);
    var _ := Read(stream, output, readerErrors);
    received := output.Drain();
    readErrors := readerErrors.Drain();

    if forall i :: 0 <= i < |msgs| ==> encode(i, msgs[i]).Encoded? {
      CleanWrite(msgs, encode);
    }
  }
}
