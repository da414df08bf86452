/**
 * Timeline and thread list streams end to end: SDK diffs are mapped and encoded by the native side,
 * and decoded and applied to the app's list by the app.
 */
module Pipeline {
  import opened AppCodec
  import opened DiffCodec
  import opened FacadeList
  import opened Integers
  import opened Sse
  import opened ThreadCodec
  import opened TimelineCodec
  import opened Wrappers
  import SdkVector

  type SdkBatch<S> = seq<SdkVector.VectorDiff<S>>

  function MapBatches<S, T>(f: S -> T, stream: seq<SdkBatch<S>>): seq<seq<ListDiff<T>>> {
    if stream == [] then [] else [TranslateAll(f, stream[0])] + MapBatches(f, stream[1..])
  }

  /** Everything a watch has to send: a reset to the initial items, then each mapped batch. */
  function Batches<S, T>(f: S -> T, initial: seq<S>, stream: seq<SdkBatch<S>>): seq<seq<ListDiff<T>>> {
    [[Reset(MapAll(f, initial))]] + MapBatches(f, stream)
  }

  method MapDiffs<S, T>(f: S -> T, diffs: SdkBatch<S>) returns (mapped: seq<ListDiff<T>>)
    ensures mapped == TranslateAll(f, diffs)
  {
    mapped := [];
    for i := 0 to |diffs|
      invariant mapped + TranslateAll(f, diffs[i..]) == TranslateAll(f, diffs)
    {
      assert diffs[i..][1..] == diffs[i + 1..];
      mapped := mapped + [Translate(f, diffs[i])];
    }
  }

  /** The watch task; the sink accepts `accepted` batches before it is closed. */
  method Watch<S, T>(f: S -> T, initial: seq<S>, stream: seq<SdkBatch<S>>, accepted: nat)
    returns (sent: seq<seq<ListDiff<T>>>)
    ensures sent <= Batches(f, initial, stream)
    ensures |sent| == if accepted < |Batches(f, initial, stream)| then accepted else |Batches(f, initial, stream)|
  {
    sent := [];
    MapBatchesLength(f, stream);
    if accepted == 0 {
      return;
    }
    sent := sent + [[Reset(MapAll(f, initial))]];
    var i := 0;
    while i < |stream|
      invariant 0 <= i <= |stream| && |sent| == i + 1 <= accepted
      invariant sent + MapBatches(f, stream[i..]) == Batches(f, initial, stream)
    {
      var mapped := MapDiffs(f, stream[i]);
      assert stream[i..][1..] == stream[i + 1..];
      if |sent| == accepted {
        break;
      }
      sent := sent + [mapped];
      i := i + 1;
    }
  }

  lemma {:induction false} MapBatchesLength<S, T>(f: S -> T, stream: seq<SdkBatch<S>>)
    ensures |MapBatches(f, stream)| == |stream|
  {
    if stream != [] { MapBatchesLength(f, stream[1..]); }
  }

  // The SDK's vector and what the app can follow.

  function SdkAfter<S>(stream: seq<SdkBatch<S>>, v: seq<S>): Option<seq<S>> {
    if stream == [] then Some(v)
    else
      var next :- SdkVector.ApplyAll(stream[0], v);
      SdkAfter(stream[1..], next)
  }

  ghost predicate TranslatableStream<S>(stream: seq<SdkBatch<S>>, v: seq<S>) {
    stream != [] ==>
      && Translatable(stream[0], v)
      && SdkVector.ApplyAll(stream[0], v).Some?
      && TranslatableStream(stream[1..], SdkVector.ApplyAll(stream[0], v).value)
  }

  type Encoder<!T> = (T, Bytes) -> Bytes
  type Decoder<!T> = Bytes -> Decoded<T>

  /** The app decodes a message and applies its diffs; `None` where either fails. */
  function Receive<T>(decode: Decoder<seq<ListDiff<T>>>, message: Bytes, list: seq<T>): Option<seq<T>> {
    var (batch, left) :- decode(message);
    if left != [] then None else ApplyAll(batch, list)
  }

  function ReceiveAll<T>(
    encode: Encoder<seq<ListDiff<T>>>, decode: Decoder<seq<ListDiff<T>>>,
    batches: seq<seq<ListDiff<T>>>, list: seq<T>): Option<seq<T>>
  {
    if batches == [] then Some(list)
    else
      var next :- Receive(decode, encode(batches[0], []), list);
      ReceiveAll(encode, decode, batches[1..], next)
  }

  function ApplyBatches<T>(batches: seq<seq<ListDiff<T>>>, list: seq<T>): Option<seq<T>> {
    if batches == [] then Some(list)
    else
      var next :- ApplyAll(batches[0], list);
      ApplyBatches(batches[1..], next)
  }

  /** Every well-sized value that is encoded is read back, up to its end. */
  ghost predicate Reads<T(!new)>(encode: Encoder<T>, decode: Decoder<T>, sized: T -> bool) {
    forall v: T, rest: Bytes | sized(v) :: decode(encode(v, rest)) == Some((v, rest))
  }

  /** Well-sized batches reach the app as they were sent. */
  lemma {:induction false} ReceivedAsSent<T(!new)>(
    encode: Encoder<seq<ListDiff<T>>>, decode: Decoder<seq<ListDiff<T>>>, sized: seq<ListDiff<T>> -> bool,
    batches: seq<seq<ListDiff<T>>>, list: seq<T>)
    requires Reads(encode, decode, sized)
    requires forall batch | batch in batches :: sized(batch)
    ensures ReceiveAll(encode, decode, batches, list) == ApplyBatches(batches, list)
  {
    if batches != [] {
      assert batches[0] in batches;
      assert decode(encode(batches[0], [])) == Some((batches[0], []));
      if ApplyAll(batches[0], list).Some? {
        ReceivedAsSent(encode, decode, sized, batches[1..], ApplyAll(batches[0], list).value);
      }
    }
  }

  lemma {:induction false} MappedBatchesApply<S, T>(f: S -> T, stream: seq<SdkBatch<S>>, v: seq<S>)
    requires TranslatableStream(stream, v)
    ensures SdkAfter(stream, v).Some?
    ensures ApplyBatches(MapBatches(f, stream), MapAll(f, v)) == Some(MapAll(f, SdkAfter(stream, v).value))
  {
    if stream != [] {
      StreamCommutes(f, stream[0], v);
      MappedBatchesApply(f, stream[1..], SdkVector.ApplyAll(stream[0], v).value);
      assert MapBatches(f, stream)[1..] == MapBatches(f, stream[1..]);
    }
  }

  /** The app ends up with the item-wise image of the SDK's vector, whatever list it had before. */
  lemma StreamArrives<S, T(!new)>(
    encode: Encoder<seq<ListDiff<T>>>, decode: Decoder<seq<ListDiff<T>>>, sized: seq<ListDiff<T>> -> bool,
    f: S -> T, initial: seq<S>, stream: seq<SdkBatch<S>>, list: seq<T>)
    requires Reads(encode, decode, sized)
    requires forall batch | batch in Batches(f, initial, stream) :: sized(batch)
    requires TranslatableStream(stream, initial)
    ensures SdkAfter(stream, initial).Some?
    ensures ReceiveAll(encode, decode, Batches(f, initial, stream), list) ==
      Some(MapAll(f, SdkAfter(stream, initial).value))
  {
    var reset := [ListDiff.Reset(MapAll(f, initial))];
    var batches := Batches(f, initial, stream);
    ReceivedAsSent(encode, decode, sized, batches, list);
    assert batches[0] == reset && batches[1..] == MapBatches(f, stream);
    assert reset[1..] == [] && ApplyAll(reset, list) == Some(MapAll(f, initial));
    MappedBatchesApply(f, stream, initial);
  }

  lemma TimelineArrives<S>(
    f: S -> TimelineItem, initial: seq<S>, stream: seq<SdkBatch<S>>, list: seq<TimelineItem>)
    requires forall batch | batch in Batches(f, initial, stream) :: SizedTimelineBatch(batch)
    requires TranslatableStream(stream, initial)
    ensures SdkAfter(stream, initial).Some?
    ensures ReceiveAll(EncodeTimelineBatch, AppTimelineBatch, Batches(f, initial, stream), list) ==
      Some(MapAll(f, SdkAfter(stream, initial).value))
  {
    AppReadsTimelineBatches();
    StreamArrives(EncodeTimelineBatch, AppTimelineBatch, SizedTimelineBatch, f, initial, stream, list);
  }

  lemma ThreadListArrives<S>(
    f: S -> ThreadInfo, initial: seq<S>, stream: seq<SdkBatch<S>>, list: seq<ThreadInfo>)
    requires forall batch | batch in Batches(f, initial, stream) :: SizedThreadListBatch(batch)
    requires TranslatableStream(stream, initial)
    ensures SdkAfter(stream, initial).Some?
    ensures ReceiveAll(EncodeThreadListBatch, AppThreadListBatch, Batches(f, initial, stream), list) ==
      Some(MapAll(f, SdkAfter(stream, initial).value))
  {
    AppReadsThreadListBatches();
    StreamArrives(EncodeThreadListBatch, AppThreadListBatch, SizedThreadListBatch, f, initial, stream, list);
  }
}
