/** The codec's cursors: encoders append to a buffer, decoders consume one and fill vectors. */
module SseStreams {
  import opened FacadeList
  import opened DiffCodec
  import opened Integers
  import opened Sse
  import opened TimelineCodec
  import opened Utf8
  import opened Wrappers

  /** Everything an event is made of passes following bytes through. */
  lemma FieldsAppend()
    ensures Appends(EncodeEventKey) && Appends(EncodeString) && Appends(EncodeSender) && Appends(EncodeI64)
    ensures Appends(EncodeBool) && Appends(EncodeSendState) && Appends(EncodeEventContent)
    ensures Appends(EncodeReplyPreview) && Appends(EncodeReaction) && Appends(EncodeThreadSummary)
  {
    hide EncodeEventKey, EncodeString, EncodeSender, EncodeI64, EncodeBool, EncodeSendState,
      EncodeEventContent, EncodeReplyPreview, EncodeReaction, EncodeThreadSummary, Inverts;
    EventKeyCodec();
    StringCodec();
    SenderCodec();
    I64Codec();
    BoolCodec();
    SendStateCodec();
    EventContentCodec();
    ReplyPreviewCodec();
    ReactionCodec();
    ThreadSummaryCodec();
  }

  class SseSerializer {
    var cursor: Bytes

    constructor ()
      ensures cursor == []
    {
      cursor := [];
    }

    /** Appends one nested value; `following` is what the encoding goes on with. */
    method Write<T(!new)>(encode: (T, Bytes) -> Bytes, v: T, ghost following: Bytes)
      requires Appends(encode)
      modifies this
      ensures cursor + following == old(cursor) + encode(v, following)
    {
      assert [] + following == following;
      assert encode(v, []) + following == encode(v, [] + following);
      cursor := cursor + encode(v, []);
    }

    /** The generated loop over a vector: the wrapped length, then item after item. */
    method WriteVec<T(!new)>(encode: (T, Bytes) -> Bytes, items: seq<T>, ghost following: Bytes)
      requires Appends(encode)
      modifies this
      ensures cursor + following == old(cursor) + EncodeVec(encode, items, following)
    {
      I32Codec();
      Write(EncodeI32, AsI32(|items|), EncodeItems(encode, items, following));
      assert items[0..] == items;
      for i := 0 to |items|
        invariant
          cursor + EncodeItems(encode, items[i..], following) ==
            old(cursor) + EncodeVec(encode, items, following)
      {
        assert items[i..][0] == items[i] && items[i..][1..] == items[i + 1..];
        Write(encode, items[i], EncodeItems(encode, items[i + 1..], following));
      }
      assert items[|items|..] == [];
    }

    method WriteString(s: Str, ghost following: Bytes)
      modifies this
      ensures cursor + following == old(cursor) + EncodeString(s, following)
    {
      WriteVec(EncodeU8, s, following);
    }

    method WriteOption<T(!new)>(encode: (T, Bytes) -> Bytes, v: Option<T>, ghost following: Bytes)
      requires Appends(encode)
      modifies this
      ensures cursor + following == old(cursor) + EncodeOption(encode, v, following)
    {
      BoolCodec();
      Write(EncodeBool, v.Some?, if v.Some? then encode(v.value, following) else following);
      if v.Some? {
        Write(encode, v.value, following);
      }
    }

    /** The fourteen fields of an event, one after the other. */
    method WriteEventItem(v: EventItem, ghost following: Bytes)
      modifies this
      ensures cursor + following == old(cursor) + EncodeEventItem(v, following)
    {
      hide EncodeEventKey, EncodeOption, EncodeString, EncodeSender, EncodeI64, EncodeBool, EncodeSendState,
        EncodeEventContent, EncodeReplyPreview, EncodeVec, EncodeReaction, EncodeThreadSummary;
      hide DecodeEventKey, DecodeSender, DecodeSendState, DecodeEventContent, DecodeReplyPreview,
        DecodeReaction, DecodeThreadSummary;
      ghost var from14 := EncodeOption(EncodeThreadSummary, v.thread, following);
      ghost var from13 := EncodeOption(EncodeString, v.threadRoot, from14);
      ghost var from12 := EncodeBool(v.isEdited, from13);
      ghost var from11 := EncodeVec(EncodeReaction, v.reactions, from12);
      ghost var from10 := EncodeOption(EncodeReplyPreview, v.replyTo, from11);
      ghost var from9 := EncodeEventContent(v.content, from10);
      ghost var from8 := EncodeSendState(v.sendState, from9);
      ghost var from7 := EncodeBool(v.canReply, from8);
      ghost var from6 := EncodeBool(v.canEdit, from7);
      ghost var from5 := EncodeBool(v.isOwn, from6);
      ghost var from4 := EncodeI64(v.timestampMs, from5);
      ghost var from3 := EncodeSender(v.sender, from4);
      ghost var from2 := EncodeOption(EncodeString, v.eventId, from3);
      FieldsAppend();
      Write(EncodeEventKey, v.key, from2);
      WriteOption(EncodeString, v.eventId, from3);
      Write(EncodeSender, v.sender, from4);
      Write(EncodeI64, v.timestampMs, from5);
      Write(EncodeBool, v.isOwn, from6);
      Write(EncodeBool, v.canEdit, from7);
      Write(EncodeBool, v.canReply, from8);
      Write(EncodeSendState, v.sendState, from9);
      Write(EncodeEventContent, v.content, from10);
      WriteOption(EncodeReplyPreview, v.replyTo, from11);
      WriteVec(EncodeReaction, v.reactions, from12);
      Write(EncodeBool, v.isEdited, from13);
      WriteOption(EncodeString, v.threadRoot, from14);
      WriteOption(EncodeThreadSummary, v.thread, following);
    }

    method WriteTimelineItemKind(v: TimelineItemKind, ghost following: Bytes)
      modifies this
      ensures cursor + following == old(cursor) + EncodeTimelineItemKind(v, following)
    {
      hide EncodeI32, EncodeI64, EncodeEventItem, DecodeI32, DecodeI64;
      I32Codec();
      I64Codec();
      match v {
        case Event(event) =>
          Write(EncodeI32, 0, EncodeEventItem(event, following));
          WriteEventItem(event, following);
        case DateDivider(timestampMs) =>
          Write(EncodeI32, 1, EncodeI64(timestampMs, following));
          Write(EncodeI64, timestampMs, following);
        case ReadMarker =>
          Write(EncodeI32, 2, following);
        case TimelineStart =>
          Write(EncodeI32, 3, following);
      }
    }

    method WriteTimelineItem(v: TimelineItem, ghost following: Bytes)
      modifies this
      ensures cursor + following == old(cursor) + EncodeTimelineItem(v, following)
    {
      WriteString(v.id, EncodeTimelineItemKind(v.kind, following));
      WriteTimelineItemKind(v.kind, following);
    }

    method WriteTimelineItems(items: seq<TimelineItem>, ghost following: Bytes)
      modifies this
      ensures cursor + following == old(cursor) + EncodeVec(EncodeTimelineItem, items, following)
    {
      hide EncodeI32, DecodeI32, EncodeTimelineItem;
      I32Codec();
      Write(EncodeI32, AsI32(|items|), EncodeItems(EncodeTimelineItem, items, following));
      assert items[0..] == items;
      for i := 0 to |items|
        invariant
          cursor + EncodeItems(EncodeTimelineItem, items[i..], following) ==
            old(cursor) + EncodeVec(EncodeTimelineItem, items, following)
      {
        assert items[i..][0] == items[i] && items[i..][1..] == items[i + 1..];
        WriteTimelineItem(items[i], EncodeItems(EncodeTimelineItem, items[i + 1..], following));
      }
      assert items[|items|..] == [];
    }

    /** A diff: its tag, then its fields. */
    method WriteTimelineDiff(v: ListDiff<TimelineItem>, ghost following: Bytes)
      modifies this
      ensures cursor + following == old(cursor) + EncodeTimelineDiff(v, following)
    {
      hide EncodeI32, EncodeU32, EncodeVec, EncodeTimelineItem, DecodeI32, DecodeU32;
      I32Codec();
      U32Codec();
      match v {
        case Append(values) =>
          Write(EncodeI32, 0, EncodeVec(EncodeTimelineItem, values, following));
          WriteTimelineItems(values, following);
        case Clear =>
          Write(EncodeI32, 1, following);
        case PushFront(value) =>
          Write(EncodeI32, 2, EncodeTimelineItem(value, following));
          WriteTimelineItem(value, following);
        case PushBack(value) =>
          Write(EncodeI32, 3, EncodeTimelineItem(value, following));
          WriteTimelineItem(value, following);
        case PopFront =>
          Write(EncodeI32, 4, following);
        case PopBack =>
          Write(EncodeI32, 5, following);
        case Insert(index, value) =>
          Write(EncodeI32, 6, EncodeU32(index, EncodeTimelineItem(value, following)));
          Write(EncodeU32, index, EncodeTimelineItem(value, following));
          WriteTimelineItem(value, following);
        case Set(index, value) =>
          Write(EncodeI32, 7, EncodeU32(index, EncodeTimelineItem(value, following)));
          Write(EncodeU32, index, EncodeTimelineItem(value, following));
          WriteTimelineItem(value, following);
        case Remove(index) =>
          Write(EncodeI32, 8, EncodeU32(index, following));
          Write(EncodeU32, index, following);
        case Truncate(length) =>
          Write(EncodeI32, 9, EncodeU32(length, following));
          Write(EncodeU32, length, following);
        case Reset(values) =>
          Write(EncodeI32, 10, EncodeVec(EncodeTimelineItem, values, following));
          WriteTimelineItems(values, following);
      }
    }

    method WriteTimelineBatch(batch: seq<ListDiff<TimelineItem>>, ghost following: Bytes)
      modifies this
      ensures cursor + following == old(cursor) + EncodeTimelineBatch(batch, following)
    {
      hide EncodeI32, DecodeI32, EncodeTimelineDiff;
      I32Codec();
      Write(EncodeI32, AsI32(|batch|), EncodeItems(EncodeTimelineDiff, batch, following));
      assert batch[0..] == batch;
      for i := 0 to |batch|
        invariant
          cursor + EncodeItems(EncodeTimelineDiff, batch[i..], following) ==
            old(cursor) + EncodeTimelineBatch(batch, following)
      {
        assert batch[i..][0] == batch[i] && batch[i..][1..] == batch[i + 1..];
        WriteTimelineDiff(batch[i], EncodeItems(EncodeTimelineDiff, batch[i + 1..], following));
      }
      assert batch[|batch|..] == [];
    }
  }

  class SseDeserializer {
    /** The bytes not read yet. */
    var cursor: Bytes

    constructor (bytes: Bytes)
      ensures cursor == bytes
    {
      cursor := bytes;
    }

    /** `None` and an unspecified cursor where reading panics. */
    ghost predicate Took<T>(r: Option<T>, decoded: Decoded<T>)
      reads this
    {
      if decoded.Some? then r == Some(decoded.value.0) && cursor == decoded.value.1 else r == None
    }

    method Read<T>(decode: Bytes -> Decoded<T>) returns (r: Option<T>)
      modifies this
      ensures Took(r, decode(old(cursor)))
    {
      var decoded := decode(cursor);
      if decoded.None? {
        return None;
      }
      cursor := decoded.value.1;
      return Some(decoded.value.0);
    }

    /** The generated loop over a vector: items are pushed as they are read. */
    method ReadVec<T(!new)>(decode: Bytes -> Decoded<T>) returns (r: Option<seq<T>>)
      modifies this
      ensures Took(r, DecodeVec(decode, old(cursor)))
    {
      var length := Read(DecodeI32);
      if length.None? || length.value < 0 {
        return None;
      }
      ghost var body := cursor;
      var ans: seq<T> := [];
      ghost var all := DecodeItems(decode, length.value, body);
      assert all.Some? ==> [] + all.value.0 == all.value.0;
      for i := 0 to length.value
        invariant |ans| == i
        invariant
          var remaining := DecodeItems(decode, length.value - i, cursor);
          DecodeItems(decode, length.value, body) ==
            if remaining.Some? then Some((ans + remaining.value.0, remaining.value.1)) else None
      {
        ghost var before := cursor;
        var item :- Read(decode);
        ghost var others := DecodeItems(decode, length.value - i - 1, cursor);
        if others.Some? {
          assert ans + ([item] + others.value.0) == (ans + [item]) + others.value.0;
        }
        ans := ans + [item];
      }
      assert ans + [] == ans;
      return Some(ans);
    }

    method ReadOption<T>(decode: Bytes -> Decoded<T>) returns (r: Option<Option<T>>)
      modifies this
      ensures Took(r, DecodeOption(decode, old(cursor)))
    {
      var present :- Read(DecodeBool);
      if !present {
        return Some(None);
      }
      var value :- Read(decode);
      return Some(Some(value));
    }

    /** The fourteen fields of an event, one after the other. */
    method ReadEventItem() returns (r: Option<EventItem>)
      modifies this
      ensures Took(r, DecodeEventItem(old(cursor)))
    {
      hide DecodeEventKey, DecodeOption, DecodeString, DecodeSender, DecodeI64, DecodeBool, DecodeSendState,
        DecodeEventContent, DecodeReplyPreview, DecodeVec, DecodeReaction, DecodeThreadSummary;
      var key :- Read(DecodeEventKey);
      var eventId :- ReadOption(DecodeString);
      var sender :- Read(DecodeSender);
      var timestampMs :- Read(DecodeI64);
      var isOwn :- Read(DecodeBool);
      var canEdit :- Read(DecodeBool);
      var canReply :- Read(DecodeBool);
      var sendState :- Read(DecodeSendState);
      var content :- Read(DecodeEventContent);
      var replyTo :- ReadOption(DecodeReplyPreview);
      var reactions :- ReadVec(DecodeReaction);
      var isEdited :- Read(DecodeBool);
      var threadRoot :- ReadOption(DecodeString);
      var thread :- ReadOption(DecodeThreadSummary);
      return Some(EventItem(
        key, eventId, sender, timestampMs, isOwn, canEdit, canReply,
        sendState, content, replyTo, reactions, isEdited, threadRoot, thread));
    }

    method ReadString() returns (r: Option<Str>)
      modifies this
      ensures Took(r, DecodeString(old(cursor)))
    {
      var b :- ReadVec(DecodeU8);
      if !WellFormed(b) {
        return None;
      }
      return Some(b);
    }

    method ReadTimelineItemKind() returns (r: Option<TimelineItemKind>)
      modifies this
      ensures Took(r, DecodeTimelineItemKind(old(cursor)))
    {
      hide DecodeI32, DecodeI64, DecodeEventItem;
      var tag :- Read(DecodeI32);
      match tag {
        case 0 =>
          var event :- ReadEventItem();
          return Some(Event(event));
        case 1 =>
          var timestampMs :- Read(DecodeI64);
          return Some(DateDivider(timestampMs));
        case 2 =>
          return Some(ReadMarker);
        case 3 =>
          return Some(TimelineStart);
        case _ =>
          return None;
      }
    }

    method ReadTimelineItem() returns (r: Option<TimelineItem>)
      modifies this
      ensures Took(r, DecodeTimelineItem(old(cursor)))
    {
      hide DecodeString, DecodeTimelineItemKind;
      var id :- ReadString();
      var kind :- ReadTimelineItemKind();
      return Some(TimelineItem(id, kind));
    }

    method ReadTimelineItems() returns (r: Option<seq<TimelineItem>>)
      modifies this
      ensures Took(r, DecodeVec(DecodeTimelineItem, old(cursor)))
    {
      hide DecodeI32, DecodeTimelineItem;
      var length := Read(DecodeI32);
      if length.None? || length.value < 0 {
        return None;
      }
      ghost var body := cursor;
      var ans: seq<TimelineItem> := [];
      ghost var all := DecodeItems(DecodeTimelineItem, length.value, body);
      assert all.Some? ==> [] + all.value.0 == all.value.0;
      for i := 0 to length.value
        invariant |ans| == i
        invariant
          var remaining := DecodeItems(DecodeTimelineItem, length.value - i, cursor);
          DecodeItems(DecodeTimelineItem, length.value, body) ==
            if remaining.Some? then Some((ans + remaining.value.0, remaining.value.1)) else None
      {
        var item :- ReadTimelineItem();
        ghost var others := DecodeItems(DecodeTimelineItem, length.value - i - 1, cursor);
        if others.Some? {
          assert ans + ([item] + others.value.0) == (ans + [item]) + others.value.0;
        }
        ans := ans + [item];
      }
      assert ans + [] == ans;
      return Some(ans);
    }

    /** A diff: its tag, then its fields. */
    method ReadTimelineDiff() returns (r: Option<ListDiff<TimelineItem>>)
      modifies this
      ensures Took(r, DecodeTimelineDiff(old(cursor)))
    {
      hide DecodeI32, DecodeU32, DecodeVec, DecodeTimelineItem;
      var tag :- Read(DecodeI32);
      match tag {
        case 0 =>
          var values :- ReadTimelineItems();
          return Some(Append(values));
        case 1 =>
          return Some(Clear);
        case 2 =>
          var value :- ReadTimelineItem();
          return Some(PushFront(value));
        case 3 =>
          var value :- ReadTimelineItem();
          return Some(PushBack(value));
        case 4 =>
          return Some(PopFront);
        case 5 =>
          return Some(PopBack);
        case 6 =>
          var index :- Read(DecodeU32);
          var value :- ReadTimelineItem();
          return Some(Insert(index, value));
        case 7 =>
          var index :- Read(DecodeU32);
          var value :- ReadTimelineItem();
          return Some(Set(index, value));
        case 8 =>
          var index :- Read(DecodeU32);
          return Some(Remove(index));
        case 9 =>
          var length :- Read(DecodeU32);
          return Some(Truncate(length));
        case 10 =>
          var values :- ReadTimelineItems();
          return Some(Reset(values));
        case _ =>
          return None;
      }
    }

    method ReadTimelineBatch() returns (r: Option<seq<ListDiff<TimelineItem>>>)
      modifies this
      ensures Took(r, DecodeTimelineBatch(old(cursor)))
    {
      hide DecodeI32, DecodeTimelineDiff;
      var length := Read(DecodeI32);
      if length.None? || length.value < 0 {
        return None;
      }
      ghost var body := cursor;
      var ans: seq<ListDiff<TimelineItem>> := [];
      ghost var all := DecodeItems(DecodeTimelineDiff, length.value, body);
      assert all.Some? ==> [] + all.value.0 == all.value.0;
      for i := 0 to length.value
        invariant |ans| == i
        invariant
          var remaining := DecodeItems(DecodeTimelineDiff, length.value - i, cursor);
          DecodeItems(DecodeTimelineDiff, length.value, body) ==
            if remaining.Some? then Some((ans + remaining.value.0, remaining.value.1)) else None
      {
        var item :- ReadTimelineDiff();
        ghost var others := DecodeItems(DecodeTimelineDiff, length.value - i - 1, cursor);
        if others.Some? {
          assert ans + ([item] + others.value.0) == (ans + [item]) + others.value.0;
        }
        ans := ans + [item];
      }
      assert ans + [] == ans;
      return Some(ans);
    }
  }

  /** A written batch is read back, leaving nothing behind. */
  method SendAndReceive(batch: seq<ListDiff<TimelineItem>>)
    returns (received: Option<seq<ListDiff<TimelineItem>>>, left: nat)
    requires SizedTimelineBatch(batch)
    ensures received == Some(batch) && left == 0
  {
    hide EncodeTimelineBatch, DecodeTimelineBatch, SizedTimelineBatch;
    TimelineBatchCodec();
    var serializer := new SseSerializer();
    serializer.WriteTimelineBatch(batch, []);
    assert serializer.cursor + [] == serializer.cursor && [] + EncodeTimelineBatch(batch, []) == serializer.cursor;
    assert serializer.cursor == EncodeTimelineBatch(batch, []);
    var deserializer := new SseDeserializer(serializer.cursor);
    received := deserializer.ReadTimelineBatch();
    left := |deserializer.cursor|;
    assert Inverts(DecodeTimelineBatch(EncodeTimelineBatch(batch, [])), batch, [], true);
  }
}
