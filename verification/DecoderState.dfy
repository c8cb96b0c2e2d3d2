/** A decoder in the middle of its stream, as values: what it has consumed, how
    much of its output it has handed out, and what that leaves. */
module DecoderStates {
  import opened ResponseStreams

  // `flushing`: the input has ended while the decoder wanted more.
  datatype DecoderState = DecoderState(consumed: seq<Byte>, emitted: nat, flushing: bool)

  function Available(c: Codec, d: DecoderState): seq<Byte> {
    c.output(d.consumed)
    + (if d.flushing && c.atEnd(d.consumed).Some? then c.atEnd(d.consumed).value else [])
  }

  // `input` is what the decoder has not consumed.
  ghost predicate Sensible(c: Codec, d: DecoderState, input: Stream) {
    && (forall k :: 0 <= k < |d.consumed| ==> c.progress(d.consumed[..k]).More?)
    && d.emitted <= |Available(c, d)|
    && (d.flushing ==> input == Stream([], Eof) && c.progress(d.consumed).More? && c.atEnd(d.consumed).Some?)
  }

  predicate Exhausted(c: Codec, d: DecoderState) {
    (d.flushing || c.progress(d.consumed).Finished?) && d.emitted == |Available(c, d)|
  }

  ghost function Whole(c: Codec, d: DecoderState, input: Stream): Stream {
    Decode(c, Stream(d.consumed + input.bytes, input.end))
  }

  // What a reader of the decoder has still to see.
  ghost function Left(c: Codec, d: DecoderState, input: Stream): Stream {
    var whole := Whole(c, d, input);
    Stream(if d.emitted <= |whole.bytes| then whole.bytes[d.emitted..] else [], whole.end)
  }

  lemma ConsumedIsBeforeCut(c: Codec, d: DecoderState, input: Stream)
    requires Sensible(c, d, input)
    ensures var x := d.consumed + input.bytes;
            |d.consumed| <= CutFrom(c, x, 0) && (!c.progress(d.consumed).More? ==> CutFrom(c, x, 0) == |d.consumed|)
  {
    var x := d.consumed + input.bytes;
    forall k | 0 <= k < |d.consumed| ensures c.progress(x[..k]).More? {
      assert x[..k] == d.consumed[..k];
    }
    assert x[..|d.consumed|] == d.consumed;
  }

  lemma AvailableComesFirst(c: Codec, d: DecoderState, input: Stream)
    requires Streaming(c) && Sensible(c, d, input)
    ensures Available(c, d) <= Whole(c, d, input).bytes
    ensures Exhausted(c, d) ==> Whole(c, d, input) == Stream(Available(c, d), input.end)
    ensures c.progress(d.consumed).Corrupt? ==> Whole(c, d, input).end.Failed?
  {
    ConsumedIsBeforeCut(c, d, input);
    var x := d.consumed + input.bytes;
    var p := x[..CutFrom(c, x, 0)];
    assert d.consumed <= p;
    assert c.output(d.consumed) <= c.output(p);
    if d.flushing {
      assert x == d.consumed == p;
    } else {
      assert Available(c, d) == c.output(d.consumed);
    }
  }

  lemma EmitStep(c: Codec, d: DecoderState, input: Stream, k: nat)
    requires Streaming(c) && Sensible(c, d, input) && d.emitted + k <= |Available(c, d)|
    ensures var d' := d.(emitted := d.emitted + k);
            && Sensible(c, d', input)
            && Left(c, d, input).bytes == Available(c, d)[d.emitted..d.emitted + k] + Left(c, d', input).bytes
            && Left(c, d', input).end == Left(c, d, input).end
  {
    AvailableComesFirst(c, d, input);
    var whole := Whole(c, d, input).bytes;
    assert Available(c, d)[d.emitted..d.emitted + k] == whole[d.emitted..d.emitted + k];
    assert whole[d.emitted..] == whole[d.emitted..d.emitted + k] + whole[d.emitted + k..];
  }

  lemma ConsumeStep(c: Codec, d: DecoderState, input: Stream)
    requires Streaming(c) && Sensible(c, d, input) && !d.flushing
    requires c.progress(d.consumed).More? && input.bytes != []
    ensures var d' := d.(consumed := d.consumed + [input.bytes[0]]);
            && Sensible(c, d', input.(bytes := input.bytes[1..]))
            && Left(c, d', input.(bytes := input.bytes[1..])) == Left(c, d, input)
  {
    var d' := d.(consumed := d.consumed + [input.bytes[0]]);
    assert d.consumed + input.bytes == d'.consumed + input.bytes[1..];
    forall k | 0 <= k < |d'.consumed| ensures c.progress(d'.consumed[..k]).More? {
      if k < |d.consumed| {
        assert d'.consumed[..k] == d.consumed[..k];
      } else {
        assert d'.consumed[..k] == d.consumed;
      }
    }
    assert c.output(d.consumed) <= c.output(d'.consumed);
  }

  lemma EndStep(c: Codec, d: DecoderState)
    requires Streaming(c) && Sensible(c, d, Stream([], Eof)) && !d.flushing && c.progress(d.consumed).More?
    ensures c.atEnd(d.consumed).None? ==> Left(c, d, Stream([], Eof)).end.Failed?
    ensures c.atEnd(d.consumed).Some? ==>
              var d' := d.(flushing := true);
              Sensible(c, d', Stream([], Eof)) && Left(c, d', Stream([], Eof)) == Left(c, d, Stream([], Eof))
  {
    ConsumedIsBeforeCut(c, d, Stream([], Eof));
    assert d.consumed + [] == d.consumed;
  }

  // Once a decoder is exhausted, only how its input ends still matters.
  lemma DrainStep(c: Codec, d: DecoderState, input: Stream, later: Stream)
    requires Streaming(c) && Sensible(c, d, input) && Exhausted(c, d)
    requires later.end == input.end && (d.flushing ==> later == input)
    ensures Sensible(c, d, later) && Left(c, d, later) == Left(c, d, input) == Stream([], input.end)
  {
    AvailableComesFirst(c, d, input);
    AvailableComesFirst(c, d, later);
  }
}
