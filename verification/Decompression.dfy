/** The poll-level readers of a decompressed response body, nested as deep as
    the Content-Encoding asks, and proved to deliver what `ResponseStreams.Stack`
    makes of the whole body, however it arrives and is asked for. */
module Decompression {
  import opened ContentEncodings
  import opened Wrappers
  import opened ResponseStreams
  import opened DecoderStates

  // One poll. `Ready([])` into a buffer with room is the end of the stream.
  datatype Poll = Pending | Ready(bytes: seq<Byte>) | Error

  // What a poll of a reader may do to what is left of its stream. Nothing is
  // said about a reader that has returned an error.
  predicate Delivers(before: Stream, capacity: nat, p: Poll, after: Stream) {
    match p
    case Pending => after == before
    case Ready(bytes) =>
      && |bytes| <= capacity && before.bytes == bytes + after.bytes && after.end == before.end
      && (bytes == [] && capacity > 0 ==> before == Stream([], Eof))
    case Error => before.end.Failed?
  }

  // What a stream delivers within a limit is what the limited stream delivers.
  lemma TakeStep(before: Stream, capacity: nat, p: Poll, after: Stream, remaining: nat)
    requires remaining > 0 && !p.Error?
    requires Delivers(before, if capacity <= remaining then capacity else remaining, p, after)
    ensures var taken := if p.Ready? then |p.bytes| else 0;
            && after.end == before.end && taken <= remaining
            && Delivers(Limit(before, remaining), capacity, p, Limit(after, remaining - taken))
  {
    if p.Ready? {
      LimitStep(before, p.bytes, after, remaining);
    }
  }

  // Every poll that is not the last one uses up some of the effort left.
  predicate Pays(before: nat, p: Poll, after: nat) {
    match p
    case Pending => after < before
    case Ready(bytes) => after + |bytes| <= before
    case Error => true
  }

  // A limiter counts down what it passes on; if what it limits is complete, its
  // only error is that of the limit, and comes when nothing may be passed on.
  predicate LimiterKept(before: nat, end: End, p: Poll, after: nat) {
    && before == after + (if p.Ready? then |p.bytes| else 0)
    && (p.Error? && end.Eof? ==> before == 0)
  }

  // One turn of the library decoder.
  datatype Turn = Produced(bytes: seq<Byte>) | Advanced | Starved | Done | Stuck

  const BUFFER_CAPACITY: nat := 8192

  // The boxed readers of a stack.
  datatype Reader =
    | OfBody(body: Body)
    | OfDecoder(decoder: CompleteStageDecoder)
    | OfLimiter(limiter: SizeLimitedReader)

  ghost function Objects(r: Reader): set<object> {
    match r
    case OfBody(body) => {body}
    case OfDecoder(decoder) => decoder.repr
    case OfLimiter(limiter) => limiter.repr
  }

  ghost function Depth(r: Reader): nat {
    match r
    case OfBody(_) => 0
    case OfDecoder(decoder) => decoder.depth
    case OfLimiter(limiter) => limiter.depth
  }

  ghost predicate Valid(r: Reader)
    reads Objects(r)
    decreases Depth(r), 0
  {
    match r
    case OfBody(_) => true
    case OfDecoder(d) =>
      && d in d.repr && Objects(d.inner) <= d.repr && d !in Objects(d.inner) && Depth(d.inner) < d.depth
      && Valid(d.inner)
      && Streaming(d.codec) && Sensible(d.codec, d.state, Prepend(d.buffer, Rest(d.inner)))
      && (d.decodingComplete ==> Exhausted(d.codec, d.state))
    case OfLimiter(l) =>
      && l in l.repr && Objects(l.inner) <= l.repr && l !in Objects(l.inner) && Depth(l.inner) < l.depth
      && Valid(l.inner)
  }

  function Prepend(bytes: seq<Byte>, s: Stream): Stream {
    Stream(bytes + s.bytes, s.end)
  }

  lemma PrependTwice(a: seq<Byte>, b: seq<Byte>, s: Stream)
    ensures Prepend(a, Prepend(b, s)) == Prepend(a + b, s)
  {
    assert a + (b + s.bytes) == a + b + s.bytes;
  }

  // The stream that is still to be read from `r`.
  ghost function Rest(r: Reader): Stream
    requires Valid(r)
    reads Objects(r)
    decreases Depth(r), 1
  {
    match r
    case OfBody(body) => body.rest
    case OfDecoder(d) => Left(d.codec, d.state, Prepend(d.buffer, Rest(d.inner)))
    case OfLimiter(l) => Limit(Rest(l.inner), l.remaining)
  }

  // What is left to do: polls the body is not ready for, bytes to move from one
  // reader to the next, bytes to hand out.
  ghost function Effort(r: Reader): nat
    requires Valid(r)
    reads Objects(r)
    decreases Depth(r), 2
  {
    match r
    case OfBody(body) => body.delays + |body.rest.bytes|
    case OfDecoder(d) => Effort(d.inner) + |d.buffer| + |Rest(r).bytes|
    case OfLimiter(l) => Effort(l.inner)
  }

  method PollReader(r: Reader, capacity: nat) returns (p: Poll)
    requires Valid(r)
    modifies Objects(r)
    ensures !p.Error? ==> Valid(r) && Delivers(old(Rest(r)), capacity, p, Rest(r))
    ensures !p.Error? ==> Pays(old(Effort(r)), p, Effort(r))
    ensures p.Error? ==> old(Rest(r)).end.Failed?
    ensures r.OfLimiter? ==>
              LimiterKept(old(r.limiter.remaining), old(Rest(r.limiter.inner)).end, p, r.limiter.remaining)
    ensures r.OfLimiter? && !p.Error? ==> Rest(r.limiter.inner).end == old(Rest(r.limiter.inner)).end
    decreases Depth(r), 5
  {
    match r
    case OfBody(body) => p := body.PollRead(capacity);
    case OfDecoder(decoder) => p := decoder.PollRead(capacity);
    case OfLimiter(limiter) => p := limiter.PollRead(capacity);
  }

  // The response as it comes off the network: in pieces of any size, not ready
  // at any of the polls but no more than `delays` times.
  class Body {
    var rest: Stream
    var delays: nat

    constructor (rest: Stream, delays: nat)
      ensures this.rest == rest && this.delays == delays
    {
      this.rest, this.delays := rest, delays;
    }

    method PollRead(capacity: nat) returns (p: Poll)
      modifies this
      ensures !p.Error? ==> Delivers(old(rest), capacity, p, rest)
      ensures !p.Error? ==> Pays(old(delays + |rest.bytes|), p, delays + |rest.bytes|)
      ensures p.Error? ==> old(rest).end.Failed?
    {
      if capacity == 0 {
        return Ready([]);
      }
      var notYet: bool := *;
      if delays > 0 && notYet {
        delays := delays - 1;
        return Pending;
      }
      if rest.bytes == [] {
        return if rest.end.Eof? then Ready([]) else Error;
      }
      var n: nat :| 1 <= n <= capacity && n <= |rest.bytes|;
      p := Ready(rest.bytes[..n]);
      rest := Stream(rest.bytes[n..], rest.end);
    }
  }

  class CompleteStageDecoder {
    const codec: Codec
    const inner: Reader
    var buffer: seq<Byte>          // read from `inner`, not yet consumed
    var state: DecoderState
    var decodingComplete: bool
    ghost const repr: set<object>
    ghost const depth: nat

    constructor (inner: Reader, codec: Codec)
      requires Valid(inner) && Streaming(codec)
      ensures Valid(OfDecoder(this)) && fresh(repr - Objects(inner))
      ensures Rest(OfDecoder(this)) == Decode(codec, Rest(inner))
      ensures Effort(OfDecoder(this)) == Effort(inner) + |Decode(codec, Rest(inner)).bytes|
    {
      this.inner, this.codec := inner, codec;
      buffer, state, decodingComplete := [], DecoderState([], 0, false), false;
      repr := {this} + Objects(inner);
      depth := Depth(inner) + 1;
      new;
      assert [] + ([] + Rest(inner).bytes) == Rest(inner).bytes;
    }

    // The library hands out `k` bytes of what it has decoded.
    method Emit(k: nat) returns (bytes: seq<Byte>)
      requires Valid(OfDecoder(this)) && !decodingComplete && state.emitted + k <= |Available(codec, state)|
      modifies this
      ensures Valid(OfDecoder(this)) && |bytes| == k
      ensures old(Rest(OfDecoder(this))) == Prepend(bytes, Rest(OfDecoder(this)))
      ensures Effort(OfDecoder(this)) + k == old(Effort(OfDecoder(this)))
      ensures buffer == old(buffer) && decodingComplete == old(decodingComplete)
      ensures state == old(state).(emitted := old(state).emitted + k)
    {
      EmitStep(codec, state, Prepend(buffer, Rest(inner)), k);
      bytes := Available(codec, state)[state.emitted..state.emitted + k];
      state := state.(emitted := state.emitted + k);
    }

    // ... or takes one byte of its input.
    method Consume()
      requires Valid(OfDecoder(this)) && !decodingComplete
      requires !state.flushing && codec.progress(state.consumed).More? && buffer != []
      modifies this
      ensures Valid(OfDecoder(this)) && Rest(OfDecoder(this)) == old(Rest(OfDecoder(this)))
      ensures Effort(OfDecoder(this)) <= old(Effort(OfDecoder(this)))
      ensures buffer == old(buffer[1..]) && decodingComplete == old(decodingComplete) && !state.flushing
    {
      ghost var input := Prepend(buffer, Rest(inner));
      ConsumeStep(codec, state, input);
      assert input.bytes[1..] == buffer[1..] + Rest(inner).bytes;
      state := state.(consumed := state.consumed + [buffer[0]]);
      buffer := buffer[1..];
    }

    // ... or, having none left, fills its buffer; at the end of the input it
    // starts to flush.
    method Fill() returns (p: Poll)
      requires Valid(OfDecoder(this)) && !decodingComplete
      requires !state.flushing && codec.progress(state.consumed).More? && buffer == []
      modifies repr
      ensures p.Error? ==> old(Rest(OfDecoder(this))).end.Failed?
      ensures !p.Error? ==> Valid(OfDecoder(this)) && Rest(OfDecoder(this)) == old(Rest(OfDecoder(this)))
      ensures !p.Error? ==> decodingComplete == old(decodingComplete)
      ensures p.Pending? ==> state == old(state) && Effort(OfDecoder(this)) < old(Effort(OfDecoder(this)))
      ensures p.Ready? ==> Effort(OfDecoder(this)) <= old(Effort(OfDecoder(this)))
      decreases depth, 1
      ensures p.Ready? ==> if p.bytes == [] then
                state.flushing && buffer == [] && Rest(inner) == old(Rest(inner))
              else
                state == old(state) && buffer == p.bytes && |Rest(inner).bytes| + |buffer| == old(|Rest(inner).bytes|)
    {
      p := Refill();
      if p == Ready([]) {
        var ok := StartFlush();
        p := if ok then Ready([]) else Error;
      }
    }

    method Refill() returns (p: Poll)
      requires Valid(OfDecoder(this)) && !decodingComplete && buffer == []
      modifies repr
      ensures p.Error? ==> old(Rest(OfDecoder(this))).end.Failed?
      ensures !p.Error? ==> Valid(OfDecoder(this)) && Rest(OfDecoder(this)) == old(Rest(OfDecoder(this)))
      ensures decodingComplete == old(decodingComplete) && state == old(state)
      ensures p.Pending? ==> buffer == [] && Effort(OfDecoder(this)) < old(Effort(OfDecoder(this)))
      ensures p.Ready? ==> buffer == p.bytes && |Rest(inner).bytes| + |buffer| == old(|Rest(inner).bytes|)
      ensures p.Ready? ==> Effort(OfDecoder(this)) <= old(Effort(OfDecoder(this)))
      ensures p == Ready([]) ==> Rest(inner) == old(Rest(inner)) == Stream([], Eof)
      decreases depth, 0
    {
      ghost var input := Prepend([], Rest(inner));
      p := PollReader(inner, BUFFER_CAPACITY);
      if p.Ready? {
        buffer := p.bytes;
      }
      assert !p.Error? ==> Prepend(buffer, Rest(inner)) == input;
    }

    method StartFlush() returns (ok: bool)
      requires Valid(OfDecoder(this)) && !decodingComplete && !state.flushing
      requires codec.progress(state.consumed).More? && buffer == [] && Rest(inner) == Stream([], Eof)
      modifies this
      ensures !ok ==> old(Rest(OfDecoder(this))).end.Failed?
      ensures ok ==> Valid(OfDecoder(this)) && state.flushing && Rest(OfDecoder(this)) == old(Rest(OfDecoder(this)))
      ensures buffer == [] && decodingComplete == old(decodingComplete)
    {
      EndStep(codec, state);
      ok := codec.atEnd(state.consumed).Some?;
      if ok {
        state := state.(flushing := true);
      }
    }

    ghost function Work(): nat
      requires Valid(OfDecoder(this))
      reads repr
    {
      2 * |Rest(inner).bytes| + |buffer| + if state.flushing then 0 else 1
    }

    // One turn of the library decoder with room for `room` bytes. It may decode
    // ahead of what it hands out, and fail before it has handed out everything.
    method Turn(room: nat) returns (t: Turn)
      requires Valid(OfDecoder(this)) && !decodingComplete && room > 0
      modifies repr
      ensures t.Stuck? ==> old(Rest(OfDecoder(this))).end.Failed?
      ensures !t.Stuck? ==> Valid(OfDecoder(this)) && !decodingComplete
      ensures t.Produced? ==> 1 <= |t.bytes| <= room && Work() == old(Work())
                              && old(Rest(OfDecoder(this))) == Prepend(t.bytes, Rest(OfDecoder(this)))
      ensures t.Advanced? || t.Starved? || t.Done? ==> Rest(OfDecoder(this)) == old(Rest(OfDecoder(this)))
      ensures t.Advanced? ==> Work() < old(Work())
      ensures t.Done? ==> Exhausted(codec, state)
      ensures t.Produced? ==> Effort(OfDecoder(this)) + |t.bytes| <= old(Effort(OfDecoder(this)))
      ensures t.Advanced? || t.Done? ==> Effort(OfDecoder(this)) <= old(Effort(OfDecoder(this)))
      ensures t.Starved? ==> Effort(OfDecoder(this)) < old(Effort(OfDecoder(this)))
      decreases depth, 2
    {
      var ready := |Available(codec, state)| - state.emitted;
      var over := state.flushing || codec.progress(state.consumed).Finished?;
      var handOut: bool := *;
      if ready > 0 && (over || handOut) {
        var k: nat :| 1 <= k <= ready && k <= room;
        var bytes := Emit(k);
        t := Produced(bytes);
      } else if over {
        t := Done;
      } else if codec.progress(state.consumed).Corrupt? {
        AvailableComesFirst(codec, state, Prepend(buffer, Rest(inner)));
        t := Stuck;
      } else if buffer != [] {
        Consume();
        t := Advanced;
      } else {
        var filled := Fill();
        t := if filled.Error? then Stuck else if filled.Pending? then Starved else Advanced;
      }
    }

    // The library decoder: it stops when the buffer is full, when it is starved
    // or earlier, loses what it has decoded in a poll that fails, and says it
    // is done only when it is.
    method PollDecode(capacity: nat) returns (p: Poll)
      requires Valid(OfDecoder(this)) && !decodingComplete && capacity > 0
      modifies repr
      ensures !p.Error? ==> Valid(OfDecoder(this)) && !decodingComplete
      ensures p.Pending? ==> Rest(OfDecoder(this)) == old(Rest(OfDecoder(this)))
      ensures p.Ready? ==> |p.bytes| <= capacity
                           && old(Rest(OfDecoder(this))) == Prepend(p.bytes, Rest(OfDecoder(this)))
      ensures p == Ready([]) ==> Exhausted(codec, state)
      ensures p.Error? ==> old(Rest(OfDecoder(this))).end.Failed?
      ensures !p.Error? ==> Pays(old(Effort(OfDecoder(this))), p, Effort(OfDecoder(this)))
      decreases depth, 3
    {
      var decoded: seq<Byte> := [];
      ghost var start, left, effort := Rest(OfDecoder(this)), Rest(OfDecoder(this)), Effort(OfDecoder(this));
      assert start == Prepend(decoded, left);
      while true
        invariant Valid(OfDecoder(this)) && !decodingComplete && |decoded| <= capacity
        invariant left == Rest(OfDecoder(this)) && start == Prepend(decoded, left)
        invariant Effort(OfDecoder(this)) + |decoded| <= effort
        decreases Work() + capacity - |decoded|
      {
        var early: bool := *;
        if |decoded| == capacity || (decoded != [] && early) {
          return Ready(decoded);
        }
        var t := Turn(capacity - |decoded|);
        match t {
          case Produced(bytes) =>
            PrependTwice(decoded, bytes, Rest(OfDecoder(this)));
            decoded, left := decoded + bytes, Rest(OfDecoder(this));
          case Advanced =>
          case Starved => return if decoded == [] then Pending else Ready(decoded);
          case Done => return Ready(decoded);
          case Stuck => return Error;
        }
      }
    }

    method PollRead(capacity: nat) returns (p: Poll)
      requires Valid(OfDecoder(this))
      modifies repr
      ensures !p.Error? ==> Valid(OfDecoder(this))
                            && Delivers(old(Rest(OfDecoder(this))), capacity, p, Rest(OfDecoder(this)))
      ensures p.Error? ==> old(Rest(OfDecoder(this))).end.Failed?
      ensures !p.Error? ==> Pays(old(Effort(OfDecoder(this))), p, Effort(OfDecoder(this)))
      decreases depth, 4
    {
      if capacity == 0 {
        return Ready([]);
      }
      if !decodingComplete {
        p := PollDecode(capacity);
        if p != Ready([]) {
          return;
        }
        NoteCompletion();
      }
      p := Drain();
    }

    method NoteCompletion()
      requires Valid(OfDecoder(this)) && Exhausted(codec, state)
      modifies this
      ensures Valid(OfDecoder(this)) && decodingComplete
      ensures Rest(OfDecoder(this)) == old(Rest(OfDecoder(this)))
      ensures Effort(OfDecoder(this)) == old(Effort(OfDecoder(this)))
    {
      decodingComplete := true;
    }

    // Discards a buffer of input; the end of the input is the end of the stage.
    method Drain() returns (p: Poll)
      requires Valid(OfDecoder(this)) && decodingComplete
      modifies repr
      ensures !p.Error? ==> Valid(OfDecoder(this)) && Rest(OfDecoder(this)) == old(Rest(OfDecoder(this)))
      ensures p.Ready? ==> p.bytes == [] && old(Rest(OfDecoder(this))) == Stream([], Eof)
      ensures p.Error? ==> old(Rest(OfDecoder(this))).end.Failed?
      ensures !p.Error? ==> Pays(old(Effort(OfDecoder(this))), p, Effort(OfDecoder(this)))
      decreases depth, 1
    {
      var drained := PollInput(BUFFER_CAPACITY);
      match drained {
        case Pending => p := Pending;
        case Error => p := Error;
        case Ready(bytes) => p := if bytes == [] then Ready([]) else Pending;
      }
    }

    // The library's buffered reader: buffered bytes first, then one poll.
    method PollInput(capacity: nat) returns (p: Poll)
      requires Valid(OfDecoder(this)) && Exhausted(codec, state) && capacity >= BUFFER_CAPACITY
      modifies repr
      ensures state == old(state) && decodingComplete == old(decodingComplete)
      ensures !p.Error? ==> Valid(OfDecoder(this)) && Rest(OfDecoder(this)) == old(Rest(OfDecoder(this)))
      ensures p == Ready([]) ==> old(Rest(OfDecoder(this))) == Stream([], Eof)
      ensures p.Error? ==> old(Rest(OfDecoder(this))).end.Failed?
      ensures !p.Error? ==> Pays(old(Effort(OfDecoder(this))), p, Effort(OfDecoder(this)))
      decreases depth, 0
    {
      ghost var input := Prepend(buffer, Rest(inner));
      DrainStep(codec, state, input, input);
      if buffer != [] {
        p := Ready(buffer);
        buffer := [];
      } else {
        p := PollReader(inner, capacity);
      }
      if !p.Error? {
        DrainStep(codec, state, input, Prepend(buffer, Rest(inner)));
      }
    }
  }

  class SizeLimitedReader {
    const inner: Reader
    const limit: nat
    var remaining: nat
    ghost const repr: set<object>
    ghost const depth: nat

    constructor (inner: Reader, limit: nat)
      requires Valid(inner)
      ensures Valid(OfLimiter(this)) && fresh(repr - Objects(inner))
      ensures Rest(OfLimiter(this)) == Limit(Rest(inner), limit)
      ensures Effort(OfLimiter(this)) == Effort(inner)
      ensures this.inner == inner && remaining == limit
    {
      this.inner, this.limit, remaining := inner, limit, limit;
      repr := {this} + Objects(inner);
      depth := Depth(inner) + 1;
    }

    method PollRead(capacity: nat) returns (p: Poll)
      requires Valid(OfLimiter(this))
      modifies repr
      ensures !p.Error? ==> Valid(OfLimiter(this))
                            && Delivers(old(Rest(OfLimiter(this))), capacity, p, Rest(OfLimiter(this)))
      ensures p.Error? ==> old(Rest(OfLimiter(this))).end.Failed?
      ensures LimiterKept(old(remaining), old(Rest(inner)).end, p, remaining)
      ensures !p.Error? ==> Rest(inner).end == old(Rest(inner)).end
      ensures !p.Error? ==> Pays(old(Effort(OfLimiter(this))), p, Effort(OfLimiter(this)))
      decreases depth, 1
    {
      if remaining > 0 || capacity == 0 {
        p := PollTake(capacity);
      } else {
        p := ProbeOneMore();
      }
    }

    // No more than is left of the limit is asked for, and at the limit nothing.
    method PollTake(capacity: nat) returns (p: Poll)
      requires Valid(OfLimiter(this)) && (remaining > 0 || capacity == 0)
      modifies repr
      ensures !p.Error? ==> Valid(OfLimiter(this)) && Rest(inner).end == old(Rest(inner)).end
      ensures !p.Error? ==> Delivers(old(Rest(OfLimiter(this))), capacity, p, Rest(OfLimiter(this)))
      ensures p.Error? ==> remaining > 0 && old(Rest(inner)).end.Failed? && old(Rest(OfLimiter(this))).end.Failed?
      ensures remaining == old(remaining) - if p.Ready? then |p.bytes| else 0
      ensures !p.Error? ==> Pays(old(Effort(OfLimiter(this))), p, Effort(OfLimiter(this)))
      decreases depth, 0
    {
      if remaining == 0 {
        return Ready([]);
      }
      ghost var before := Rest(inner);
      p := PollReader(inner, if capacity <= remaining then capacity else remaining);
      if !p.Error? {
        TakeStep(before, capacity, p, Rest(inner), remaining);
      }
      if p.Ready? {
        CountDown(|p.bytes|);
      }
    }

    method CountDown(n: nat)
      requires Valid(OfLimiter(this)) && n <= remaining
      modifies this
      ensures Valid(OfLimiter(this)) && remaining == old(remaining) - n
      ensures Rest(inner) == old(Rest(inner)) && Rest(OfLimiter(this)) == Limit(Rest(inner), remaining)
      ensures Effort(OfLimiter(this)) == old(Effort(OfLimiter(this)))
    {
      remaining := remaining - n;
    }

    // With nothing left to pass on, one more byte is one too many.
    method ProbeOneMore() returns (p: Poll)
      requires Valid(OfLimiter(this)) && remaining == 0
      modifies repr
      ensures !p.Error? ==> Valid(OfLimiter(this)) && remaining == 0
      ensures !p.Error? ==> Rest(OfLimiter(this)) == old(Rest(OfLimiter(this)))
      ensures !p.Error? ==> Rest(inner).end == old(Rest(inner)).end
      ensures !p.Error? ==> Pays(old(Effort(OfLimiter(this))), p, Effort(OfLimiter(this)))
      ensures p.Ready? ==> p.bytes == [] && old(Rest(OfLimiter(this))) == Stream([], Eof)
      ensures p.Error? ==> remaining == 0 && old(Rest(OfLimiter(this))).end.Failed?
      decreases depth, 0
    {
      var probe := PollReader(inner, 1);
      match probe {
        case Pending => p := Pending;
        case Error => p := Error;
        case Ready(bytes) => p := if bytes == [] then Ready([]) else Error;
      }
    }
  }

  // ----- The whole response -----

  function Codecs(encodings: seq<Algorithm>, codecOf: Algorithm -> Codec): (codecs: seq<Codec>)
    ensures |codecs| == |encodings| && forall i :: 0 <= i < |codecs| ==> codecs[i] == codecOf(encodings[i])
  {
    seq(|encodings|, i requires 0 <= i < |encodings| => codecOf(encodings[i]))
  }

  // The reader at the top of the stack is a limiter that has passed on nothing.
  ghost predicate Untouched(r: Reader, input: Stream, max: nat)
    requires Valid(r)
    reads Objects(r)
  {
    r.OfLimiter? && r.limiter.remaining == max && Rest(r.limiter.inner) == input
  }

  method AddStage(reader: Reader, codec: Codec, maxBytes: nat, ghost input: Stream) returns (r: Reader)
    requires Valid(reader) && Streaming(codec) && Rest(reader) == input
    ensures Valid(r) && fresh(Objects(r) - Objects(reader))
    ensures Rest(r) == Limit(Decode(codec, input), maxBytes)
    ensures Untouched(r, Decode(codec, input), maxBytes)
    ensures Effort(r) == old(Effort(reader)) + |Decode(codec, input).bytes|
  {
    var decoder := new CompleteStageDecoder(reader, codec);
    var limiter := new SizeLimitedReader(OfDecoder(decoder), maxBytes);
    r := OfLimiter(limiter);
  }

  // What is left of the body with `k` layers to go, and the effort to get there.
  ghost function LeftAt(codecs: seq<Codec>, k: nat, whole: Stream, max: nat): Stream
    requires k <= |codecs|
    decreases |codecs| - k
  {
    if k == |codecs| then whole else Limit(DecodedAt(codecs, k, whole, max), max)
  }

  ghost function DecodedAt(codecs: seq<Codec>, k: nat, whole: Stream, max: nat): Stream
    requires k < |codecs|
    decreases |codecs| - k, 0
  {
    Decode(codecs[k], LeftAt(codecs, k + 1, whole, max))
  }

  ghost function EffortAt(codecs: seq<Codec>, k: nat, whole: Stream, start: nat, max: nat): nat
    requires k <= |codecs|
    decreases |codecs| - k
  {
    if k == |codecs| then start
    else EffortAt(codecs, k + 1, whole, start, max) + |DecodedAt(codecs, k, whole, max).bytes|
  }

  lemma {:induction false} LayersAddUp(codecs: seq<Codec>, k: nat, whole: Stream, start: nat, max: nat)
    requires k <= |codecs|
    ensures var left := LeftAt(codecs, k, whole, max);
            && Partway(codecs, k, left, whole, max)
            && EffortAt(codecs, k, whole, start, max) + StackWork(codecs[..k], left, max)
               == start + StackWork(codecs, whole, max)
    ensures k == 0 < |codecs| ==> DecodedAt(codecs, 0, whole, max) == LastStage(codecs, whole, max)
    decreases |codecs| - k
  {
    if k == |codecs| {
      PartwayBegins(codecs, whole, max);
      assert codecs[..k] == codecs;
    } else {
      var left := LeftAt(codecs, k + 1, whole, max);
      LayersAddUp(codecs, k + 1, whole, start, max);
      PartwayStep(codecs, k, left, whole, max);
      WorkStep(codecs, k, left, max);
    }
  }

  lemma AllLayers(codecs: seq<Codec>, whole: Stream, start: nat, max: nat)
    ensures LeftAt(codecs, 0, whole, max) == Stack(codecs, whole, max)
    ensures EffortAt(codecs, 0, whole, start, max) == start + StackWork(codecs, whole, max)
    ensures codecs != [] ==> DecodedAt(codecs, 0, whole, max) == LastStage(codecs, whole, max)
  {
    LayersAddUp(codecs, 0, whole, start, max);
    PartwayEnds(codecs, LeftAt(codecs, 0, whole, max), whole, max);
  }

  // The reader of what is left with `k` layers to go.
  ghost predicate AtLayer(r: Reader, codecs: seq<Codec>, k: nat, whole: Stream, start: nat, max: nat)
    requires Valid(r) && k <= |codecs|
    reads Objects(r)
  {
    && Rest(r) == LeftAt(codecs, k, whole, max) && Effort(r) == EffortAt(codecs, k, whole, start, max)
    && (k < |codecs| ==> Untouched(r, DecodedAt(codecs, k, whole, max), max))
  }

  method NextLayer(
    reader: Reader, codec: Codec, maxBytes: nat, ghost codecs: seq<Codec>, ghost k: nat, ghost whole: Stream,
    ghost start: nat)
    returns (r: Reader)
    requires Valid(reader) && k < |codecs| && codecs[k] == codec && Streaming(codec)
    requires AtLayer(reader, codecs, k + 1, whole, start, maxBytes)
    ensures Valid(r) && fresh(Objects(r) - Objects(reader)) && AtLayer(r, codecs, k, whole, start, maxBytes)
  {
    ghost var left := LeftAt(codecs, k + 1, whole, maxBytes);
    assert DecodedAt(codecs, k, whole, maxBytes) == Decode(codec, left);
    r := AddStage(reader, codec, maxBytes, left);
  }

  method WrapLayers(
    body: Reader, encodings: seq<Algorithm>, codecOf: Algorithm -> Codec, maxBytes: nat, ghost codecs: seq<Codec>)
    returns (reader: Reader)
    requires Valid(body) && |codecs| == |encodings|
    requires forall i :: 0 <= i < |codecs| ==> codecs[i] == codecOf(encodings[i]) && Streaming(codecs[i])
    ensures Valid(reader) && fresh(Objects(reader) - Objects(body))
    ensures AtLayer(reader, codecs, 0, old(Rest(body)), old(Effort(body)), maxBytes)
  {
    ghost var whole, start := Rest(body), Effort(body);
    var k := |encodings|;
    reader := body;
    while k > 0
      invariant 0 <= k <= |encodings| && Valid(reader) && fresh(Objects(reader) - Objects(body))
      invariant AtLayer(reader, codecs, k, whole, start, maxBytes)
    {
      k := k - 1;
      reader := NextLayer(reader, codecOf(encodings[k]), maxBytes, codecs, k, whole, start);
    }
  }

  // Encodings are listed in the order of their application, so the last one is
  // decoded first.
  method WrapDecompressedBody(
    body: Body, encodings: seq<Algorithm>, codecOf: Algorithm -> Codec, maxLayers: nat, maxBytes: nat)
    returns (r: Result<Reader, EncodingError>)
    requires forall a :: Streaming(codecOf(a))
    ensures r.Err? <==> |encodings| > maxLayers
    ensures r.Err? ==> r.error == LayerLimitExceeded(|encodings|, maxLayers)
    ensures r.Ok? ==> Valid(r.value) && fresh(Objects(r.value) - {body})
    ensures var codecs := Codecs(encodings, codecOf);
            r.Ok? ==>
              && Rest(r.value) == Stack(codecs, body.rest, maxBytes)
              && (encodings != [] ==> Untouched(r.value, LastStage(codecs, body.rest, maxBytes), maxBytes))
              && Effort(r.value) == body.delays + |body.rest.bytes| + StackWork(codecs, body.rest, maxBytes)
  {
    var tooMany := ValidateLayerCount(|encodings|, maxLayers);
    if tooMany.Some? {
      return Err(tooMany.value);
    }
    ghost var codecs, start := Codecs(encodings, codecOf), body.delays + |body.rest.bytes|;
    var reader := WrapLayers(OfBody(body), encodings, codecOf, maxBytes, codecs);
    AllLayers(codecs, body.rest, start, maxBytes);
    r := Ok(reader);
  }

  datatype Outcome = Ended | Broken | Unfinished

  // A consumer that polls with buffers of the given sizes. It comes to an end
  // unless it polls too few times.
  method ReadBody(r: Reader, capacities: seq<nat>) returns (data: seq<Byte>, outcome: Outcome)
    requires Valid(r) && forall i :: 0 <= i < |capacities| ==> capacities[i] > 0
    modifies Objects(r)
    ensures data <= old(Rest(r)).bytes
    ensures outcome.Ended? ==> old(Rest(r)) == Stream(data, Eof)
    ensures outcome.Broken? ==> old(Rest(r)).end.Failed?
    ensures outcome.Unfinished? ==> |capacities| <= old(Effort(r))
    ensures outcome.Broken? && r.OfLimiter? && old(Rest(r.limiter.inner)).end.Eof? ==>
              |data| == old(r.limiter.remaining)
  {
    data := [];
    ghost var start := Rest(r);
    assert start == Prepend(data, start);
    for i := 0 to |capacities|
      invariant Valid(r) && start == Prepend(data, Rest(r)) && i + Effort(r) <= old(Effort(r))
      invariant r.OfLimiter? ==> |data| + r.limiter.remaining == old(r.limiter.remaining)
                                 && Rest(r.limiter.inner).end == old(Rest(r.limiter.inner)).end
    {
      ghost var before := Rest(r);
      var p := PollReader(r, capacities[i]);
      match p {
        case Pending =>
        case Error => return data, Broken;
        case Ready(bytes) =>
          PrependTwice(data, bytes, Rest(r));
          data := data + bytes;
          if bytes == [] {
            return data, Ended;
          }
      }
    }
    return data, Unfinished;
  }

  // What the end of the stack says of the stages.
  lemma OutcomeMeans(codecs: seq<Codec>, body: Stream, max: nat, data: seq<Byte>, outcome: Outcome)
    requires codecs != [] && data <= Stack(codecs, body, max).bytes
    requires outcome.Ended? ==> Stack(codecs, body, max) == Stream(data, Eof)
    requires outcome.Broken? ==> Stack(codecs, body, max).end.Failed?
    requires outcome.Broken? && LastStage(codecs, body, max).end.Eof? ==> |data| == max
    ensures var stages := DecodeStages(codecs, body);
            var last := stages[|stages| - 1];
            && (outcome.Ended? ==> AllFit(stages, max) && last == Stream(data, Eof))
            && (outcome.Broken? ==> !AllFit(stages, max))
            && (AllFit(stages, max) ==> data <= last.bytes)
            && (outcome.Broken? && AllFit(stages[..|stages| - 1], max) && last.end.Eof? ==>
                  |last.bytes| > max && data == last.bytes[..max])
  {
    StackMeetsStages(codecs, body, max);
    LastStageMeaning(codecs, body, max);
  }

  // From the body as it arrives to the bytes handed to the client. Whatever the
  // schedule: a clean end means that every stage was complete and within the
  // limit, and the data is what the last of them decodes to; an error means
  // that one was not; and if that is because the last stage, alone, is too
  // long, exactly the limit's worth of it has been handed out. One of the two
  // comes about after at most as many polls as there are delays, bytes received
  // and bytes decoded.
  method DecompressResponse(
    response: Stream, delays: nat, encodings: seq<Algorithm>, codecOf: Algorithm -> Codec, maxLayers: nat,
    maxBytes: nat, capacities: seq<nat>)
    returns (r: Result<(seq<Byte>, Outcome), EncodingError>)
    requires forall a :: Streaming(codecOf(a))
    requires encodings != [] && forall i :: 0 <= i < |capacities| ==> capacities[i] > 0
    ensures r.Err? <==> |encodings| > maxLayers
    ensures r.Err? ==> r.error == LayerLimitExceeded(|encodings|, maxLayers)
    ensures var codecs := Codecs(encodings, codecOf);
            var stages := DecodeStages(codecs, response);
            var last := stages[|stages| - 1];
            r.Ok? ==>
              var (data, outcome) := r.value;
              && (outcome.Ended? ==> AllFit(stages, maxBytes) && last == Stream(data, Eof))
              && (outcome.Broken? ==> !AllFit(stages, maxBytes))
              && (AllFit(stages, maxBytes) ==> data <= last.bytes)
              && (outcome.Broken? && AllFit(stages[..|stages| - 1], maxBytes) && last.end.Eof? ==>
                    |last.bytes| > maxBytes && data == last.bytes[..maxBytes])
              && (|capacities| > delays + |response.bytes| + StackWork(codecs, response, maxBytes) ==>
                    outcome == if AllFit(stages, maxBytes) then Ended else Broken)
  {
    var body := new Body(response, delays);
    var wrapped := WrapDecompressedBody(body, encodings, codecOf, maxLayers, maxBytes);
    if wrapped.Err? {
      return Err(wrapped.error);
    }
    var data, outcome := ReadBody(wrapped.value, capacities);
    OutcomeMeans(Codecs(encodings, codecOf), response, maxBytes, data, outcome);
    r := Ok((data, outcome));
  }
}
