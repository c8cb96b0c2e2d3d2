/** What a stack of decoding layers makes of a whole response body. A codec is
    abstract: it consumes a prefix of its input, produces output on the way, and
    may leave input behind it. */
module ResponseStreams {
  import opened Wrappers

  type Byte = b: int | 0 <= b < 256

  // How a byte stream ends: cleanly, or in an error.
  datatype End = Eof | Failed

  datatype Stream = Stream(bytes: seq<Byte>, end: End)

  datatype Progress = More | Finished | Corrupt

  // After the input `p`, a decoder wants more of it, is finished, or has found
  // it corrupt, and has been able to produce `output(p)`. If its input ends
  // while it wants more, `atEnd` is the rest of its output, or `None` if the
  // input was cut short.
  datatype Codec = Codec(
    progress: seq<Byte> -> Progress,
    output: seq<Byte> -> seq<Byte>,
    atEnd: seq<Byte> -> Option<seq<Byte>>)

  // Output, once produced, stays.
  ghost predicate Streaming(c: Codec) {
    forall p: seq<Byte>, q: seq<Byte> :: p <= q ==> c.output(p) <= c.output(q)
  }

  // How much of `x` the decoder consumes, given that it wants more after `i`.
  function CutFrom(c: Codec, x: seq<Byte>, i: nat): (n: nat)
    requires i <= |x|
    ensures i <= n <= |x|
    ensures forall k :: i <= k < n ==> c.progress(x[..k]).More?
    ensures n < |x| ==> !c.progress(x[..n]).More?
    decreases |x| - i
  {
    if i < |x| && c.progress(x[..i]).More? then CutFrom(c, x, i + 1) else i
  }

  // One decoding stage with its input drained: a stage whose decoder is done
  // still ends the way its input ends.
  function Decode(c: Codec, s: Stream): Stream {
    var p := s.bytes[..CutFrom(c, s.bytes, 0)];
    match c.progress(p)
    case Finished => Stream(c.output(p), s.end)
    case Corrupt => Stream(c.output(p), Failed)
    case More =>
      if s.end.Failed? then Stream(c.output(p), Failed)
      else
        match c.atEnd(p)
        case None => Stream(c.output(p), Failed)
        case Some(tail) => Stream(c.output(p) + tail, Eof)
  }

  function Limit(s: Stream, max: nat): Stream {
    if |s.bytes| <= max then s else Stream(s.bytes[..max], Failed)
  }

  // Codecs in the order in which they were applied: the last one is undone first.
  function Stack(codecs: seq<Codec>, body: Stream, max: nat): Stream {
    if codecs == [] then body
    else Stack(codecs[..|codecs| - 1], Limit(Decode(codecs[|codecs| - 1], body), max), max)
  }

  // The bytes all the stages decode to, within the limit of the one before.
  function StackWork(codecs: seq<Codec>, body: Stream, max: nat): nat {
    if codecs == [] then 0
    else
      var first := Decode(codecs[|codecs| - 1], body);
      |first.bytes| + StackWork(codecs[..|codecs| - 1], Limit(first, max), max)
  }

  // With the first `k` codecs still to undo, `s` is what has become of `body`.
  ghost predicate Partway(codecs: seq<Codec>, k: nat, s: Stream, body: Stream, max: nat)
    requires k <= |codecs|
  {
    && Stack(codecs[..k], s, max) == Stack(codecs, body, max)
    && (k > 0 ==> LastStage(codecs[..k], s, max) == LastStage(codecs, body, max))
  }

  lemma WorkStep(codecs: seq<Codec>, k: nat, s: Stream, max: nat)
    requires k < |codecs|
    ensures var first := Decode(codecs[k], s);
            StackWork(codecs[..k + 1], s, max) == |first.bytes| + StackWork(codecs[..k], Limit(first, max), max)
  {
    assert codecs[..k + 1][..k] == codecs[..k];
  }

  lemma PartwayBegins(codecs: seq<Codec>, body: Stream, max: nat)
    ensures Partway(codecs, |codecs|, body, body, max)
  {
    assert codecs[..|codecs|] == codecs;
  }

  lemma PartwayStep(codecs: seq<Codec>, k: nat, s: Stream, body: Stream, max: nat)
    requires k < |codecs| && Partway(codecs, k + 1, s, body, max)
    ensures Partway(codecs, k, Limit(Decode(codecs[k], s), max), body, max)
    ensures k == 0 ==> Decode(codecs[k], s) == LastStage(codecs, body, max)
  {
    assert codecs[..k + 1][..k] == codecs[..k];
  }

  lemma PartwayEnds(codecs: seq<Codec>, s: Stream, body: Stream, max: nat)
    requires Partway(codecs, 0, s, body, max)
    ensures s == Stack(codecs, body, max)
  {
  }

  // Passing on `bytes` counts against the limit.
  lemma LimitStep(s: Stream, bytes: seq<Byte>, rest: Stream, remaining: nat)
    requires s.bytes == bytes + rest.bytes && s.end == rest.end && |bytes| <= remaining
    ensures Limit(s, remaining).bytes == bytes + Limit(rest, remaining - |bytes|).bytes
    ensures Limit(s, remaining).end == Limit(rest, remaining - |bytes|).end
  {
  }

  // ----- The simple form: decode everything, then look at the sizes -----

  function DecodeStages(codecs: seq<Codec>, body: Stream): (stages: seq<Stream>)
    ensures |stages| == |codecs|
  {
    if codecs == [] then []
    else
      var first := Decode(codecs[|codecs| - 1], body);
      [first] + DecodeStages(codecs[..|codecs| - 1], first)
  }

  predicate Fits(s: Stream, max: nat) {
    s.end.Eof? && |s.bytes| <= max
  }

  predicate AllFit(stages: seq<Stream>, max: nat) {
    forall i :: 0 <= i < |stages| ==> Fits(stages[i], max)
  }

  // Thanks to the draining, a stage never hides that its input failed.
  lemma {:induction false} StackNoticesFailure(codecs: seq<Codec>, body: Stream, max: nat)
    requires body.end.Failed?
    ensures Stack(codecs, body, max).end.Failed?
  {
    if codecs != [] {
      StackNoticesFailure(codecs[..|codecs| - 1], Limit(Decode(codecs[|codecs| - 1], body), max), max);
    }
  }

  // The layered readers end cleanly exactly when every stage, decoded on its
  // own and in full, is complete and within the limit; and then they deliver
  // what the last of them is.
  lemma {:induction false} StackMeetsStages(codecs: seq<Codec>, body: Stream, max: nat)
    requires codecs != []
    ensures var stages := DecodeStages(codecs, body);
            && (Stack(codecs, body, max).end.Eof? <==> AllFit(stages, max))
            && (AllFit(stages, max) ==> Stack(codecs, body, max) == stages[|stages| - 1])
  {
    var stages := DecodeStages(codecs, body);
    var first := stages[0];
    var rest := codecs[..|codecs| - 1];
    assert forall i :: 0 < i < |stages| ==> stages[i] == DecodeStages(rest, first)[i - 1];
    if rest == [] {
    } else if Fits(first, max) {
      StackMeetsStages(rest, first, max);
      var later := DecodeStages(rest, first);
      assert stages == [first] + later;
      if AllFit(stages, max) {
        forall i | 0 <= i < |later| ensures Fits(later[i], max) {
          assert Fits(stages[i + 1], max);
        }
      }
      if AllFit(later, max) {
        forall i | 0 <= i < |stages| ensures Fits(stages[i], max) {
          if i > 0 {
            assert Fits(later[i - 1], max);
          }
        }
      }
    } else {
      StackNoticesFailure(rest, Limit(first, max), max);
    }
  }

  // Excess is noticed wherever it is: even behind the end of the member that
  // the next decoder reads.
  lemma ExcessIsNoticed(codecs: seq<Codec>, body: Stream, max: nat, i: nat)
    requires i < |codecs| && |DecodeStages(codecs, body)[i].bytes| > max
    ensures Stack(codecs, body, max).end.Failed?
  {
    StackMeetsStages(codecs, body, max);
    assert !Fits(DecodeStages(codecs, body)[i], max);
  }

  // What the innermost stage, the last to be decoded, has to offer its limiter.
  function LastStage(codecs: seq<Codec>, body: Stream, max: nat): Stream
    requires codecs != []
  {
    var n := |codecs| - 1;
    var first := Decode(codecs[n], body);
    if n == 0 then first else LastStage(codecs[..n], Limit(first, max), max)
  }

  lemma {:induction false} LastStageMeaning(codecs: seq<Codec>, body: Stream, max: nat)
    requires codecs != []
    ensures Stack(codecs, body, max) == Limit(LastStage(codecs, body, max), max)
    ensures var stages := DecodeStages(codecs, body);
            AllFit(stages[..|stages| - 1], max) ==> LastStage(codecs, body, max) == stages[|stages| - 1]
  {
    var n := |codecs| - 1;
    var first := Decode(codecs[n], body);
    var stages := DecodeStages(codecs, body);
    if n > 0 {
      LastStageMeaning(codecs[..n], Limit(first, max), max);
      if AllFit(stages[..n], max) {
        var later := DecodeStages(codecs[..n], first);
        assert Fits(stages[..n][0], max);
        forall i | 0 <= i < n - 1 ensures Fits(later[i], max) {
          assert Fits(stages[..n][i + 1], max);
        }
      }
    }
  }

  // ----- Encoding and decoding again -----

  // `encode` is undone by `c`, which needs all of the encoded bytes.
  ghost predicate Undoes(c: Codec, encode: seq<Byte> -> seq<Byte>) {
    forall d: seq<Byte> :: UndoneAt(c, encode, d)
  }

  ghost predicate UndoneAt(c: Codec, encode: seq<Byte> -> seq<Byte>, d: seq<Byte>) {
    && c.progress(encode(d)).Finished? && c.output(encode(d)) == d
    && forall n :: 0 <= n < |encode(d)| ==> c.progress(encode(d)[..n]).More?
  }

  function Encoded(encoders: seq<seq<Byte> -> seq<Byte>>, data: seq<Byte>): seq<Byte> {
    if encoders == [] then data
    else var last := encoders[|encoders| - 1]; last(Encoded(encoders[..|encoders| - 1], data))
  }

  predicate EveryLayerWithin(encoders: seq<seq<Byte> -> seq<Byte>>, data: seq<Byte>, max: nat) {
    forall i :: 0 <= i < |encoders| ==> |Encoded(encoders[..i], data)| <= max
  }

  // Encoded bytes followed by junk still decode: the junk is drained away.
  lemma DecodeUndoes(c: Codec, encode: seq<Byte> -> seq<Byte>, data: seq<Byte>, junk: seq<Byte>, end: End)
    requires Undoes(c, encode)
    ensures Decode(c, Stream(encode(data) + junk, end)) == Stream(data, end)
  {
    assert UndoneAt(c, encode, data);
    var e := encode(data);
    var x := e + junk;
    var n := CutFrom(c, x, 0);
    assert x[..|e|] == e;
    forall k | 0 <= k < |e| ensures c.progress(x[..k]).More? {
      assert x[..k] == e[..k];
    }
    assert n == |e|;
  }

  // A body encoded layer by layer comes back exactly when the data and every
  // encoded form but the outermost, which is the body itself, are within the
  // limit; otherwise the stack ends in an error.
  lemma {:induction false} EncodeThenStack(
    codecs: seq<Codec>, encoders: seq<seq<Byte> -> seq<Byte>>, data: seq<Byte>, max: nat)
    requires |codecs| == |encoders| && forall i :: 0 <= i < |codecs| ==> Undoes(codecs[i], encoders[i])
    ensures var decoded := Stack(codecs, Stream(Encoded(encoders, data), Eof), max);
            && (decoded.end.Eof? <==> EveryLayerWithin(encoders, data, max))
            && (decoded.end.Eof? ==> decoded.bytes == data)
  {
    if codecs != [] {
      var n := |codecs| - 1;
      var inner := Encoded(encoders[..n], data);
      DecodeUndoes(codecs[n], encoders[n], inner, [], Eof);
      assert encoders[n](inner) + [] == encoders[n](inner);
      LayersWithin(encoders, data, max);
      if |inner| <= max {
        EncodeThenStack(codecs[..n], encoders[..n], data, max);
      } else {
        StackNoticesFailure(codecs[..n], Limit(Stream(inner, Eof), max), max);
      }
    }
  }

  lemma LayersWithin(encoders: seq<seq<Byte> -> seq<Byte>>, data: seq<Byte>, max: nat)
    requires encoders != []
    ensures var before := encoders[..|encoders| - 1];
            EveryLayerWithin(encoders, data, max) <==>
              EveryLayerWithin(before, data, max) && |Encoded(before, data)| <= max
  {
    var n := |encoders| - 1;
    var before := encoders[..n];
    if EveryLayerWithin(encoders, data, max) {
      forall i | 0 <= i < n ensures |Encoded(before[..i], data)| <= max {
        assert before[..i] == encoders[..i];
      }
    }
    if EveryLayerWithin(before, data, max) && |Encoded(before, data)| <= max {
      forall i | 0 <= i < |encoders| ensures |Encoded(encoders[..i], data)| <= max {
        if i < n {
          assert before[..i] == encoders[..i];
        }
      }
    }
  }
}
