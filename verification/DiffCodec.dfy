/**
 * Diff batches on the wire. The three generated diff codecs differ only in the item type, so they
 * are written once over the codec of an item.
 */
module DiffCodec {
  import opened FacadeList
  import opened Integers
  import opened RoomCodec
  import opened Sse
  import opened ThreadCodec
  import opened TimelineCodec
  import opened Wrappers

  function EncodeDiff<T>(encode: (T, Bytes) -> Bytes, v: ListDiff<T>, rest: Bytes): Bytes {
    match v
    case Append(values) => EncodeI32(0, EncodeVec(encode, values, rest))
    case Clear => EncodeI32(1, rest)
    case PushFront(value) => EncodeI32(2, encode(value, rest))
    case PushBack(value) => EncodeI32(3, encode(value, rest))
    case PopFront => EncodeI32(4, rest)
    case PopBack => EncodeI32(5, rest)
    case Insert(index, value) => EncodeI32(6, EncodeU32(index, encode(value, rest)))
    case Set(index, value) => EncodeI32(7, EncodeU32(index, encode(value, rest)))
    case Remove(index) => EncodeI32(8, EncodeU32(index, rest))
    case Truncate(length) => EncodeI32(9, EncodeU32(length, rest))
    case Reset(values) => EncodeI32(10, EncodeVec(encode, values, rest))
  }

  function DecodeDiff<T>(decode: Bytes -> Decoded<T>, s: Bytes): Decoded<ListDiff<T>> {
    var (tag, s) :- DecodeI32(s);
    match tag
    case 0 =>
      var (values, s) :- DecodeVec(decode, s);
      Some((Append(values), s))
    case 1 => Some((Clear, s))
    case 2 =>
      var (value, s) :- decode(s);
      Some((PushFront(value), s))
    case 3 =>
      var (value, s) :- decode(s);
      Some((PushBack(value), s))
    case 4 => Some((PopFront, s))
    case 5 => Some((PopBack, s))
    case 6 =>
      var (index, s) :- DecodeU32(s);
      var (value, s) :- decode(s);
      Some((Insert(index, value), s))
    case 7 =>
      var (index, s) :- DecodeU32(s);
      var (value, s) :- decode(s);
      Some((Set(index, value), s))
    case 8 =>
      var (index, s) :- DecodeU32(s);
      Some((Remove(index), s))
    case 9 =>
      var (length, s) :- DecodeU32(s);
      Some((Truncate(length), s))
    case 10 =>
      var (values, s) :- DecodeVec(decode, s);
      Some((Reset(values), s))
    case _ => None
  }

  predicate SizedDiff<T>(sized: T -> bool, v: ListDiff<T>) {
    match v
    case Append(values) => SizedVec(sized, values)
    case PushFront(value) => sized(value)
    case PushBack(value) => sized(value)
    case Insert(_, value) => sized(value)
    case Set(_, value) => sized(value)
    case Reset(values) => SizedVec(sized, values)
    case _ => true
  }

  lemma DiffRoundTrip<T(!new)>(
    encode: (T, Bytes) -> Bytes, decode: Bytes -> Decoded<T>, sized: T -> bool, v: ListDiff<T>, rest: Bytes)
    requires Codec(encode, decode, sized)
    ensures Inverts(DecodeDiff(decode, EncodeDiff(encode, v, rest)), v, rest, SizedDiff(sized, v))
  {
    hide EncodeI32, DecodeI32, EncodeU32, DecodeU32, EncodeVec, DecodeVec, SizedVec;
    I32Codec();
    U32Codec();
    VecCodec(encode, decode, sized);
  }

  lemma DiffAppends<T(!new)>(
    encode: (T, Bytes) -> Bytes, decode: Bytes -> Decoded<T>, sized: T -> bool,
    v: ListDiff<T>, rest: Bytes, more: Bytes)
    requires Codec(encode, decode, sized)
    ensures EncodeDiff(encode, v, rest) + more == EncodeDiff(encode, v, rest + more)
  {
    hide EncodeI32, DecodeI32, EncodeU32, DecodeU32, EncodeVec, DecodeVec, SizedVec;
    I32Codec();
    U32Codec();
    VecCodec(encode, decode, sized);
  }

  function EncodeTimelineDiff(v: ListDiff<TimelineItem>, rest: Bytes): Bytes {
    EncodeDiff(EncodeTimelineItem, v, rest)
  }

  function DecodeTimelineDiff(s: Bytes): Decoded<ListDiff<TimelineItem>> {
    DecodeDiff(DecodeTimelineItem, s)
  }

  predicate SizedTimelineDiff(v: ListDiff<TimelineItem>) {
    SizedDiff(SizedTimelineItem, v)
  }

  /** Timeline diffs survive exactly when every vector and string in them is shorter than 2^31. */
  lemma TimelineDiffCodec()
    ensures Codec(EncodeTimelineDiff, DecodeTimelineDiff, SizedTimelineDiff)
  {
    hide EncodeDiff, DecodeDiff, SizedDiff, EncodeTimelineItem, DecodeTimelineItem, SizedTimelineItem;
    TimelineItemCodec();
    forall v: ListDiff<TimelineItem>, rest: Bytes
      ensures Inverts(DecodeTimelineDiff(EncodeTimelineDiff(v, rest)), v, rest, SizedTimelineDiff(v))
    {
      DiffRoundTrip(EncodeTimelineItem, DecodeTimelineItem, SizedTimelineItem, v, rest);
    }
    forall v: ListDiff<TimelineItem>, rest: Bytes, more: Bytes
      ensures EncodeTimelineDiff(v, rest) + more == EncodeTimelineDiff(v, rest + more)
    {
      DiffAppends(EncodeTimelineItem, DecodeTimelineItem, SizedTimelineItem, v, rest, more);
    }
  }

  function EncodeRoomListDiff(v: ListDiff<RoomSummary>, rest: Bytes): Bytes {
    EncodeDiff(EncodeRoomSummary, v, rest)
  }

  function DecodeRoomListDiff(s: Bytes): Decoded<ListDiff<RoomSummary>> {
    DecodeDiff(DecodeRoomSummary, s)
  }

  predicate SizedRoomListDiff(v: ListDiff<RoomSummary>) {
    SizedDiff(SizedRoomSummary, v)
  }

  /** Likewise room list diffs. */
  lemma RoomListDiffCodec()
    ensures Codec(EncodeRoomListDiff, DecodeRoomListDiff, SizedRoomListDiff)
  {
    hide EncodeDiff, DecodeDiff, SizedDiff, EncodeRoomSummary, DecodeRoomSummary, SizedRoomSummary;
    RoomSummaryCodec();
    forall v: ListDiff<RoomSummary>, rest: Bytes
      ensures Inverts(DecodeRoomListDiff(EncodeRoomListDiff(v, rest)), v, rest, SizedRoomListDiff(v))
    {
      DiffRoundTrip(EncodeRoomSummary, DecodeRoomSummary, SizedRoomSummary, v, rest);
    }
    forall v: ListDiff<RoomSummary>, rest: Bytes, more: Bytes
      ensures EncodeRoomListDiff(v, rest) + more == EncodeRoomListDiff(v, rest + more)
    {
      DiffAppends(EncodeRoomSummary, DecodeRoomSummary, SizedRoomSummary, v, rest, more);
    }
  }

  function EncodeThreadListDiff(v: ListDiff<ThreadInfo>, rest: Bytes): Bytes {
    EncodeDiff(EncodeThreadInfo, v, rest)
  }

  function DecodeThreadListDiff(s: Bytes): Decoded<ListDiff<ThreadInfo>> {
    DecodeDiff(DecodeThreadInfo, s)
  }

  predicate SizedThreadListDiff(v: ListDiff<ThreadInfo>) {
    SizedDiff(SizedThreadInfo, v)
  }

  /** Likewise thread list diffs. */
  lemma ThreadListDiffCodec()
    ensures Codec(EncodeThreadListDiff, DecodeThreadListDiff, SizedThreadListDiff)
  {
    hide EncodeDiff, DecodeDiff, SizedDiff, EncodeThreadInfo, DecodeThreadInfo, SizedThreadInfo;
    ThreadInfoCodec();
    forall v: ListDiff<ThreadInfo>, rest: Bytes
      ensures Inverts(DecodeThreadListDiff(EncodeThreadListDiff(v, rest)), v, rest, SizedThreadListDiff(v))
    {
      DiffRoundTrip(EncodeThreadInfo, DecodeThreadInfo, SizedThreadInfo, v, rest);
    }
    forall v: ListDiff<ThreadInfo>, rest: Bytes, more: Bytes
      ensures EncodeThreadListDiff(v, rest) + more == EncodeThreadListDiff(v, rest + more)
    {
      DiffAppends(EncodeThreadInfo, DecodeThreadInfo, SizedThreadInfo, v, rest, more);
    }
  }

  // Messages: batches of diffs, one after another.

  /** No encoding of a well-sized value continues into another one. */
  lemma PrefixFree<T(!new)>(
    encode: (T, Bytes) -> Bytes, decode: Bytes -> Decoded<T>, sized: T -> bool, v: T, w: T, r: Bytes, s: Bytes)
    requires Codec(encode, decode, sized) && sized(v) && sized(w)
    requires encode(v, []) + r == encode(w, []) + s
    ensures v == w && r == s
  {
    assert [] + r == r && [] + s == s;
    assert encode(v, []) + r == encode(v, r) && encode(w, []) + s == encode(w, s);
    assert Inverts(decode(encode(v, r)), v, r, true) && Inverts(decode(encode(w, s)), w, s, true);
  }

  function Concatenated<T>(encode: (T, Bytes) -> Bytes, messages: seq<T>): Bytes {
    if messages == [] then [] else encode(messages[0], []) + Concatenated(encode, messages[1..])
  }

  lemma OnlyNoMessagesAreEmpty<T(!new)>(encode: (T, Bytes) -> Bytes, messages: seq<T>)
    requires forall v: T :: encode(v, []) != []
    ensures Concatenated(encode, messages) == [] <==> messages == []
  {
    if messages != [] {
      assert encode(messages[0], []) != [];
    }
  }

  /** A stream of messages can be cut in only one way. */
  lemma {:induction false} MessagesParseUniquely<T(!new)>(
    encode: (T, Bytes) -> Bytes, decode: Bytes -> Decoded<T>, sized: T -> bool, a: seq<T>, b: seq<T>)
    requires Codec(encode, decode, sized)
    requires forall v: T :: encode(v, []) != []
    requires (forall v | v in a :: sized(v)) && (forall v | v in b :: sized(v))
    requires Concatenated(encode, a) == Concatenated(encode, b)
    ensures a == b
  {
    OnlyNoMessagesAreEmpty(encode, a);
    OnlyNoMessagesAreEmpty(encode, b);
    if a != [] {
      PrefixFree(encode, decode, sized, a[0], b[0], Concatenated(encode, a[1..]), Concatenated(encode, b[1..]));
      MessagesParseUniquely(encode, decode, sized, a[1..], b[1..]);
      assert a == [a[0]] + a[1..] && b == [b[0]] + b[1..];
    }
  }

  /** What `sink.add` sends for a batch of timeline diffs. */
  function EncodeTimelineBatch(batch: seq<ListDiff<TimelineItem>>, rest: Bytes): Bytes {
    EncodeVec(EncodeTimelineDiff, batch, rest)
  }

  function DecodeTimelineBatch(s: Bytes): Decoded<seq<ListDiff<TimelineItem>>> {
    DecodeVec(DecodeTimelineDiff, s)
  }

  predicate SizedTimelineBatch(batch: seq<ListDiff<TimelineItem>>) {
    SizedVec(SizedTimelineDiff, batch)
  }

  lemma TimelineBatchCodec()
    ensures Codec(EncodeTimelineBatch, DecodeTimelineBatch, SizedTimelineBatch)
    ensures forall batch :: EncodeTimelineBatch(batch, []) != []
  {
    TimelineDiffCodec();
    VecCodec(EncodeTimelineDiff, DecodeTimelineDiff, SizedTimelineDiff);
  }

  /** ... of room list diffs ... */
  function EncodeRoomListBatch(batch: seq<ListDiff<RoomSummary>>, rest: Bytes): Bytes {
    EncodeVec(EncodeRoomListDiff, batch, rest)
  }

  function DecodeRoomListBatch(s: Bytes): Decoded<seq<ListDiff<RoomSummary>>> {
    DecodeVec(DecodeRoomListDiff, s)
  }

  predicate SizedRoomListBatch(batch: seq<ListDiff<RoomSummary>>) {
    SizedVec(SizedRoomListDiff, batch)
  }

  lemma RoomListBatchCodec()
    ensures Codec(EncodeRoomListBatch, DecodeRoomListBatch, SizedRoomListBatch)
    ensures forall batch :: EncodeRoomListBatch(batch, []) != []
  {
    RoomListDiffCodec();
    VecCodec(EncodeRoomListDiff, DecodeRoomListDiff, SizedRoomListDiff);
  }

  /** ... and of thread list diffs. */
  function EncodeThreadListBatch(batch: seq<ListDiff<ThreadInfo>>, rest: Bytes): Bytes {
    EncodeVec(EncodeThreadListDiff, batch, rest)
  }

  function DecodeThreadListBatch(s: Bytes): Decoded<seq<ListDiff<ThreadInfo>>> {
    DecodeVec(DecodeThreadListDiff, s)
  }

  predicate SizedThreadListBatch(batch: seq<ListDiff<ThreadInfo>>) {
    SizedVec(SizedThreadListDiff, batch)
  }

  lemma ThreadListBatchCodec()
    ensures Codec(EncodeThreadListBatch, DecodeThreadListBatch, SizedThreadListBatch)
    ensures forall batch :: EncodeThreadListBatch(batch, []) != []
  {
    ThreadListDiffCodec();
    VecCodec(EncodeThreadListDiff, DecodeThreadListDiff, SizedThreadListDiff);
  }

  /** Concatenated timeline messages parse in exactly one way. */
  lemma TimelineMessagesParseUniquely(a: seq<seq<ListDiff<TimelineItem>>>, b: seq<seq<ListDiff<TimelineItem>>>)
    requires (forall batch | batch in a :: SizedTimelineBatch(batch))
    requires (forall batch | batch in b :: SizedTimelineBatch(batch))
    requires Concatenated(EncodeTimelineBatch, a) == Concatenated(EncodeTimelineBatch, b)
    ensures a == b
  {
    TimelineBatchCodec();
    MessagesParseUniquely(EncodeTimelineBatch, DecodeTimelineBatch, SizedTimelineBatch, a, b);
  }
}
