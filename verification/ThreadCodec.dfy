/** Thread overviews on the wire. */
module ThreadCodec {
  import opened Integers
  import opened Sse
  import opened TimelineCodec
  import opened Utf8
  import opened Wrappers

  datatype ThreadEvent = ThreadEvent(
    eventId: Str,
    sender: Sender,
    timestampMs: I64,
    isOwn: bool,
    preview: Option<MessagePreview>)

  function EncodeThreadEvent(v: ThreadEvent, rest: Bytes): Bytes {
    EncodeString(v.eventId,
    EncodeSender(v.sender,
    EncodeI64(v.timestampMs,
    EncodeBool(v.isOwn,
    EncodeOption(EncodeMessagePreview, v.preview, rest)))))
  }

  function DecodeThreadEvent(s: Bytes): Decoded<ThreadEvent> {
    var (eventId, s) :- DecodeString(s);
    var (sender, s) :- DecodeSender(s);
    var (timestampMs, s) :- DecodeI64(s);
    var (isOwn, s) :- DecodeBool(s);
    var (preview, s) :- DecodeOption(DecodeMessagePreview, s);
    Some((ThreadEvent(eventId, sender, timestampMs, isOwn, preview), s))
  }

  predicate SizedThreadEvent(v: ThreadEvent) {
    SizedString(v.eventId) && SizedSender(v.sender) && SizedOption(SizedMessagePreview, v.preview)
  }

  lemma ThreadEventCodec()
    ensures forall v: ThreadEvent, rest: Bytes ::
      Inverts(DecodeThreadEvent(EncodeThreadEvent(v, rest)), v, rest, SizedThreadEvent(v))
    ensures forall v: ThreadEvent, rest: Bytes, more: Bytes {:trigger EncodeThreadEvent(v, rest) + more} ::
      EncodeThreadEvent(v, rest) + more == EncodeThreadEvent(v, rest + more)
  {
    hide EncodeString, DecodeString, SizedString, EncodeSender, DecodeSender, SizedSender, EncodeI64,
      DecodeI64, EncodeBool, DecodeBool, EncodeOption, DecodeOption, SizedOption, EncodeMessagePreview,
      DecodeMessagePreview, SizedMessagePreview;
    StringCodec();
    SenderCodec();
    I64Codec();
    BoolCodec();
    MessagePreviewCodec();
    OptionCodec(EncodeMessagePreview, DecodeMessagePreview, SizedMessagePreview);
  }

  datatype ThreadInfo = ThreadInfo(root: ThreadEvent, latest: Option<ThreadEvent>, replyCount: U32)

  function EncodeThreadInfo(v: ThreadInfo, rest: Bytes): Bytes {
    EncodeThreadEvent(v.root, EncodeOption(EncodeThreadEvent, v.latest, EncodeU32(v.replyCount, rest)))
  }

  function DecodeThreadInfo(s: Bytes): Decoded<ThreadInfo> {
    var (root, s) :- DecodeThreadEvent(s);
    var (latest, s) :- DecodeOption(DecodeThreadEvent, s);
    var (replyCount, s) :- DecodeU32(s);
    Some((ThreadInfo(root, latest, replyCount), s))
  }

  predicate SizedThreadInfo(v: ThreadInfo) {
    SizedThreadEvent(v.root) && SizedOption(SizedThreadEvent, v.latest)
  }

  lemma ThreadInfoCodec()
    ensures forall v: ThreadInfo, rest: Bytes ::
      Inverts(DecodeThreadInfo(EncodeThreadInfo(v, rest)), v, rest, SizedThreadInfo(v))
    ensures forall v: ThreadInfo, rest: Bytes, more: Bytes {:trigger EncodeThreadInfo(v, rest) + more} ::
      EncodeThreadInfo(v, rest) + more == EncodeThreadInfo(v, rest + more)
  {
    hide EncodeThreadEvent, DecodeThreadEvent, SizedThreadEvent, EncodeOption, DecodeOption,
      SizedOption, EncodeU32, DecodeU32;
    ThreadEventCodec();
    OptionCodec(EncodeThreadEvent, DecodeThreadEvent, SizedThreadEvent);
    U32Codec();
  }
}
