/** Timeline items on the wire: each type has its own encoder and its own decoder. */
module TimelineCodec {
  import opened Integers
  import opened Sse
  import opened Utf8
  import opened Wrappers

  datatype Sender = Sender(id: Str, name: Option<Str>, avatarUrl: Option<Str>)

  function EncodeSender(v: Sender, rest: Bytes): Bytes {
    EncodeString(v.id,
    EncodeOption(EncodeString, v.name,
    EncodeOption(EncodeString, v.avatarUrl, rest)))
  }

  function DecodeSender(s: Bytes): Decoded<Sender> {
    var (id, s) :- DecodeString(s);
    var (name, s) :- DecodeOption(DecodeString, s);
    var (avatarUrl, s) :- DecodeOption(DecodeString, s);
    Some((Sender(id, name, avatarUrl), s))
  }

  predicate SizedSender(v: Sender) {
    SizedString(v.id) && SizedOption(SizedString, v.name) && SizedOption(SizedString, v.avatarUrl)
  }

  lemma SenderCodec()
    ensures forall v: Sender, rest: Bytes ::
      Inverts(DecodeSender(EncodeSender(v, rest)), v, rest, SizedSender(v))
    ensures forall v: Sender, rest: Bytes, more: Bytes {:trigger EncodeSender(v, rest) + more} ::
      EncodeSender(v, rest) + more == EncodeSender(v, rest + more)
  {
    hide EncodeString, DecodeString, SizedString, EncodeOption, DecodeOption, SizedOption;
    StringCodec();
    OptionStringCodec();
  }

  datatype MessagePreview =
    | Text(body: Str)
    | Image
    | Video
    | Audio
    | File
    | Location
    | Poll
    | Sticker
    | Redacted
    | UnableToDecrypt
    | Other

  function EncodeMessagePreview(v: MessagePreview, rest: Bytes): Bytes {
    match v
    case Text(body) => EncodeI32(0, EncodeString(body, rest))
    case Image => EncodeI32(1, rest)
    case Video => EncodeI32(2, rest)
    case Audio => EncodeI32(3, rest)
    case File => EncodeI32(4, rest)
    case Location => EncodeI32(5, rest)
    case Poll => EncodeI32(6, rest)
    case Sticker => EncodeI32(7, rest)
    case Redacted => EncodeI32(8, rest)
    case UnableToDecrypt => EncodeI32(9, rest)
    case Other => EncodeI32(10, rest)
  }

  function DecodeMessagePreview(s: Bytes): Decoded<MessagePreview> {
    var (tag, s) :- DecodeI32(s);
    match tag
    case 0 =>
      var (body, s) :- DecodeString(s);
      Some((MessagePreview.Text(body), s))
    case 1 => Some((MessagePreview.Image, s))
    case 2 => Some((MessagePreview.Video, s))
    case 3 => Some((MessagePreview.Audio, s))
    case 4 => Some((MessagePreview.File, s))
    case 5 => Some((MessagePreview.Location, s))
    case 6 => Some((MessagePreview.Poll, s))
    case 7 => Some((MessagePreview.Sticker, s))
    case 8 => Some((MessagePreview.Redacted, s))
    case 9 => Some((MessagePreview.UnableToDecrypt, s))
    case 10 => Some((MessagePreview.Other, s))
    case _ => None
  }

  predicate SizedMessagePreview(v: MessagePreview) {
    match v
    case Text(body) => SizedString(body)
    case _ => true
  }

  lemma MessagePreviewCodec()
    ensures forall v: MessagePreview, rest: Bytes ::
      Inverts(DecodeMessagePreview(EncodeMessagePreview(v, rest)), v, rest, SizedMessagePreview(v))
    ensures forall v: MessagePreview, rest: Bytes, more: Bytes {:trigger EncodeMessagePreview(v, rest) + more} ::
      EncodeMessagePreview(v, rest) + more == EncodeMessagePreview(v, rest + more)
  {
    hide EncodeI32, DecodeI32, EncodeString, DecodeString, SizedString;
    I32Codec();
    StringCodec();
  }

  datatype DecryptionFailure =
    | Unknown
    | SentBeforeJoined
    | HistoricalNoBackup
    | HistoricalUnverifiedDevice
    | Withheld
    | UntrustedSender

  function EncodeDecryptionFailure(v: DecryptionFailure, rest: Bytes): Bytes {
    match v
    case Unknown => EncodeI32(0, rest)
    case SentBeforeJoined => EncodeI32(1, rest)
    case HistoricalNoBackup => EncodeI32(2, rest)
    case HistoricalUnverifiedDevice => EncodeI32(3, rest)
    case Withheld => EncodeI32(4, rest)
    case UntrustedSender => EncodeI32(5, rest)
  }

  function DecodeDecryptionFailure(s: Bytes): Decoded<DecryptionFailure> {
    var (tag, s) :- DecodeI32(s);
    match tag
    case 0 => Some((DecryptionFailure.Unknown, s))
    case 1 => Some((DecryptionFailure.SentBeforeJoined, s))
    case 2 => Some((DecryptionFailure.HistoricalNoBackup, s))
    case 3 => Some((DecryptionFailure.HistoricalUnverifiedDevice, s))
    case 4 => Some((DecryptionFailure.Withheld, s))
    case 5 => Some((DecryptionFailure.UntrustedSender, s))
    case _ => None
  }

  predicate SizedDecryptionFailure(v: DecryptionFailure) {
    true
  }

  lemma DecryptionFailureCodec()
    ensures forall v: DecryptionFailure, rest: Bytes ::
      Inverts(DecodeDecryptionFailure(EncodeDecryptionFailure(v, rest)), v, rest, SizedDecryptionFailure(v))
    ensures forall v: DecryptionFailure, rest: Bytes, more: Bytes
      {:trigger EncodeDecryptionFailure(v, rest) + more} ::
      EncodeDecryptionFailure(v, rest) + more == EncodeDecryptionFailure(v, rest + more)
  {
    hide EncodeI32, DecodeI32;
    I32Codec();
  }

  datatype MembershipKind =
    | Joined
    | Left
    | Invited
    | InvitationAccepted
    | InvitationRejected
    | Kicked
    | Banned
    | Other

  function EncodeMembershipKind(v: MembershipKind, rest: Bytes): Bytes {
    match v
    case Joined => EncodeI32(0, rest)
    case Left => EncodeI32(1, rest)
    case Invited => EncodeI32(2, rest)
    case InvitationAccepted => EncodeI32(3, rest)
    case InvitationRejected => EncodeI32(4, rest)
    case Kicked => EncodeI32(5, rest)
    case Banned => EncodeI32(6, rest)
    case Other => EncodeI32(7, rest)
  }

  function DecodeMembershipKind(s: Bytes): Decoded<MembershipKind> {
    var (tag, s) :- DecodeI32(s);
    match tag
    case 0 => Some((MembershipKind.Joined, s))
    case 1 => Some((MembershipKind.Left, s))
    case 2 => Some((MembershipKind.Invited, s))
    case 3 => Some((MembershipKind.InvitationAccepted, s))
    case 4 => Some((MembershipKind.InvitationRejected, s))
    case 5 => Some((MembershipKind.Kicked, s))
    case 6 => Some((MembershipKind.Banned, s))
    case 7 => Some((MembershipKind.Other, s))
    case _ => None
  }

  predicate SizedMembershipKind(v: MembershipKind) {
    true
  }

  lemma MembershipKindCodec()
    ensures forall v: MembershipKind, rest: Bytes ::
      Inverts(DecodeMembershipKind(EncodeMembershipKind(v, rest)), v, rest, SizedMembershipKind(v))
    ensures forall v: MembershipKind, rest: Bytes, more: Bytes {:trigger EncodeMembershipKind(v, rest) + more} ::
      EncodeMembershipKind(v, rest) + more == EncodeMembershipKind(v, rest + more)
  {
    hide EncodeI32, DecodeI32;
    I32Codec();
  }

  datatype EventKey = Local(transactionId: Str) | Remote(eventId: Str)

  function EncodeEventKey(v: EventKey, rest: Bytes): Bytes {
    match v
    case Local(transactionId) => EncodeI32(0, EncodeString(transactionId, rest))
    case Remote(eventId) => EncodeI32(1, EncodeString(eventId, rest))
  }

  function DecodeEventKey(s: Bytes): Decoded<EventKey> {
    var (tag, s) :- DecodeI32(s);
    match tag
    case 0 =>
      var (transactionId, s) :- DecodeString(s);
      Some((EventKey.Local(transactionId), s))
    case 1 =>
      var (eventId, s) :- DecodeString(s);
      Some((EventKey.Remote(eventId), s))
    case _ => None
  }

  predicate SizedEventKey(v: EventKey) {
    match v
    case Local(transactionId) => SizedString(transactionId)
    case Remote(eventId) => SizedString(eventId)
  }

  lemma EventKeyCodec()
    ensures forall v: EventKey, rest: Bytes ::
      Inverts(DecodeEventKey(EncodeEventKey(v, rest)), v, rest, SizedEventKey(v))
    ensures forall v: EventKey, rest: Bytes, more: Bytes {:trigger EncodeEventKey(v, rest) + more} ::
      EncodeEventKey(v, rest) + more == EncodeEventKey(v, rest + more)
  {
    hide EncodeI32, DecodeI32, EncodeString, DecodeString, SizedString;
    I32Codec();
    StringCodec();
  }

  datatype UploadProgress = UploadProgress(currentBytes: U64, totalBytes: U64)

  function EncodeUploadProgress(v: UploadProgress, rest: Bytes): Bytes {
    EncodeU64(v.currentBytes, EncodeU64(v.totalBytes, rest))
  }

  function DecodeUploadProgress(s: Bytes): Decoded<UploadProgress> {
    var (currentBytes, s) :- DecodeU64(s);
    var (totalBytes, s) :- DecodeU64(s);
    Some((UploadProgress(currentBytes, totalBytes), s))
  }

  predicate SizedUploadProgress(v: UploadProgress) {
    true
  }

  lemma UploadProgressCodec()
    ensures forall v: UploadProgress, rest: Bytes ::
      Inverts(DecodeUploadProgress(EncodeUploadProgress(v, rest)), v, rest, SizedUploadProgress(v))
    ensures forall v: UploadProgress, rest: Bytes, more: Bytes {:trigger EncodeUploadProgress(v, rest) + more} ::
      EncodeUploadProgress(v, rest) + more == EncodeUploadProgress(v, rest + more)
  {
    hide EncodeU64, DecodeU64;
    U64Codec();
  }

  datatype SendState = Sending(progress: Option<UploadProgress>) | Sent | Failed(recoverable: bool)

  function EncodeSendState(v: SendState, rest: Bytes): Bytes {
    match v
    case Sending(progress) => EncodeI32(0, EncodeOption(EncodeUploadProgress, progress, rest))
    case Sent => EncodeI32(1, rest)
    case Failed(recoverable) => EncodeI32(2, EncodeBool(recoverable, rest))
  }

  function DecodeSendState(s: Bytes): Decoded<SendState> {
    var (tag, s) :- DecodeI32(s);
    match tag
    case 0 =>
      var (progress, s) :- DecodeOption(DecodeUploadProgress, s);
      Some((SendState.Sending(progress), s))
    case 1 => Some((SendState.Sent, s))
    case 2 =>
      var (recoverable, s) :- DecodeBool(s);
      Some((SendState.Failed(recoverable), s))
    case _ => None
  }

  predicate SizedSendState(v: SendState) {
    match v
    case Sending(progress) => SizedOption(SizedUploadProgress, progress)
    case _ => true
  }

  lemma SendStateCodec()
    ensures forall v: SendState, rest: Bytes ::
      Inverts(DecodeSendState(EncodeSendState(v, rest)), v, rest, SizedSendState(v))
    ensures forall v: SendState, rest: Bytes, more: Bytes {:trigger EncodeSendState(v, rest) + more} ::
      EncodeSendState(v, rest) + more == EncodeSendState(v, rest + more)
  {
    hide EncodeI32, DecodeI32, EncodeOption, DecodeOption, SizedOption, EncodeUploadProgress,
      DecodeUploadProgress, SizedUploadProgress, EncodeBool, DecodeBool;
    I32Codec();
    UploadProgressCodec();
    OptionCodec(EncodeUploadProgress, DecodeUploadProgress, SizedUploadProgress);
    BoolCodec();
  }

  datatype EventContent =
    | Text(body: Str)
    | Image(
        caption: Option<Str>, filename: Str, media: Str, thumbnail: Option<Str>,
        width: Option<U32>, height: Option<U32>, blurhash: Option<Str>)
    | Video(caption: Option<Str>, filename: Str, media: Str)
    | Audio(filename: Str, media: Str)
    | File(caption: Option<Str>, filename: Str, media: Str, size: Option<U64>)
    | Redacted
    | UnableToDecrypt(reason: DecryptionFailure)
    | Membership(userId: Str, change: MembershipKind)
    | ProfileChange(userId: Str)
    | RoomState(eventType: Str)
    | Unsupported

  function EncodeEventContent(v: EventContent, rest: Bytes): Bytes {
    match v
    case Text(body) => EncodeI32(0, EncodeString(body, rest))
    case Image(caption, filename, media, thumbnail, width, height, blurhash) =>
      EncodeI32(1,
      EncodeOption(EncodeString, caption,
      EncodeString(filename,
      EncodeString(media,
      EncodeOption(EncodeString, thumbnail,
      EncodeOption(EncodeU32, width,
      EncodeOption(EncodeU32, height,
      EncodeOption(EncodeString, blurhash, rest))))))))
    case Video(caption, filename, media) =>
      EncodeI32(2,
      EncodeOption(EncodeString, caption, EncodeString(filename, EncodeString(media, rest))))
    case Audio(filename, media) => EncodeI32(3, EncodeString(filename, EncodeString(media, rest)))
    case File(caption, filename, media, size) =>
      EncodeI32(4,
      EncodeOption(EncodeString, caption,
      EncodeString(filename,
      EncodeString(media,
      EncodeOption(EncodeU64, size, rest)))))
    case Redacted => EncodeI32(5, rest)
    case UnableToDecrypt(reason) => EncodeI32(6, EncodeDecryptionFailure(reason, rest))
    case Membership(userId, change) =>
      EncodeI32(7,
      EncodeString(userId, EncodeMembershipKind(change, rest)))
    case ProfileChange(userId) => EncodeI32(8, EncodeString(userId, rest))
    case RoomState(eventType) => EncodeI32(9, EncodeString(eventType, rest))
    case Unsupported => EncodeI32(10, rest)
  }

  function DecodeEventContent(s: Bytes): Decoded<EventContent> {
    var (tag, s) :- DecodeI32(s);
    match tag
    case 0 =>
      var (body, s) :- DecodeString(s);
      Some((EventContent.Text(body), s))
    case 1 =>
      var (caption, s) :- DecodeOption(DecodeString, s);
      var (filename, s) :- DecodeString(s);
      var (media, s) :- DecodeString(s);
      var (thumbnail, s) :- DecodeOption(DecodeString, s);
      var (width, s) :- DecodeOption(DecodeU32, s);
      var (height, s) :- DecodeOption(DecodeU32, s);
      var (blurhash, s) :- DecodeOption(DecodeString, s);
      Some((EventContent.Image(caption, filename, media, thumbnail, width, height, blurhash), s))
    case 2 =>
      var (caption, s) :- DecodeOption(DecodeString, s);
      var (filename, s) :- DecodeString(s);
      var (media, s) :- DecodeString(s);
      Some((EventContent.Video(caption, filename, media), s))
    case 3 =>
      var (filename, s) :- DecodeString(s);
      var (media, s) :- DecodeString(s);
      Some((EventContent.Audio(filename, media), s))
    case 4 =>
      var (caption, s) :- DecodeOption(DecodeString, s);
      var (filename, s) :- DecodeString(s);
      var (media, s) :- DecodeString(s);
      var (size, s) :- DecodeOption(DecodeU64, s);
      Some((EventContent.File(caption, filename, media, size), s))
    case 5 => Some((EventContent.Redacted, s))
    case 6 =>
      var (reason, s) :- DecodeDecryptionFailure(s);
      Some((EventContent.UnableToDecrypt(reason), s))
    case 7 =>
      var (userId, s) :- DecodeString(s);
      var (change, s) :- DecodeMembershipKind(s);
      Some((EventContent.Membership(userId, change), s))
    case 8 =>
      var (userId, s) :- DecodeString(s);
      Some((EventContent.ProfileChange(userId), s))
    case 9 =>
      var (eventType, s) :- DecodeString(s);
      Some((EventContent.RoomState(eventType), s))
    case 10 => Some((EventContent.Unsupported, s))
    case _ => None
  }

  predicate SizedEventContent(v: EventContent) {
    match v
    case Text(body) => SizedString(body)
    case Image(caption, filename, media, thumbnail, _, _, blurhash) =>
      && SizedOption(SizedString, caption)
      && SizedString(filename)
      && SizedString(media)
      && SizedOption(SizedString, thumbnail)
      && SizedOption(SizedString, blurhash)
    case Video(caption, filename, media) =>
      && SizedOption(SizedString, caption)
      && SizedString(filename)
      && SizedString(media)
    case Audio(filename, media) => SizedString(filename) && SizedString(media)
    case File(caption, filename, media, _) =>
      && SizedOption(SizedString, caption)
      && SizedString(filename)
      && SizedString(media)
    case UnableToDecrypt(reason) => SizedDecryptionFailure(reason)
    case Membership(userId, change) => SizedString(userId) && SizedMembershipKind(change)
    case ProfileChange(userId) => SizedString(userId)
    case RoomState(eventType) => SizedString(eventType)
    case _ => true
  }

  lemma EventContentRoundTrip()
    ensures forall v: EventContent, rest: Bytes ::
      Inverts(DecodeEventContent(EncodeEventContent(v, rest)), v, rest, SizedEventContent(v))
  {
    hide EncodeI32, DecodeI32, EncodeString, DecodeString, SizedString, EncodeOption, DecodeOption,
      SizedOption, EncodeU32, DecodeU32, EncodeU64, DecodeU64, EncodeDecryptionFailure,
      DecodeDecryptionFailure, SizedDecryptionFailure, EncodeMembershipKind, DecodeMembershipKind,
      SizedMembershipKind;
    I32Codec();
    StringCodec();
    OptionStringCodec();
    OptionU32Codec();
    OptionU64Codec();
    DecryptionFailureCodec();
    MembershipKindCodec();
  }

  lemma EventContentAppends()
    ensures forall v: EventContent, rest: Bytes, more: Bytes {:trigger EncodeEventContent(v, rest) + more} ::
      EncodeEventContent(v, rest) + more == EncodeEventContent(v, rest + more)
  {
    hide EncodeI32, DecodeI32, EncodeString, DecodeString, SizedString, EncodeOption, DecodeOption,
      SizedOption, EncodeU32, DecodeU32, EncodeU64, DecodeU64, EncodeDecryptionFailure,
      DecodeDecryptionFailure, SizedDecryptionFailure, EncodeMembershipKind, DecodeMembershipKind,
      SizedMembershipKind;
    I32Codec();
    StringCodec();
    OptionStringCodec();
    OptionU32Codec();
    OptionU64Codec();
    DecryptionFailureCodec();
    MembershipKindCodec();
  }

  lemma EventContentCodec()
    ensures forall v: EventContent, rest: Bytes ::
      Inverts(DecodeEventContent(EncodeEventContent(v, rest)), v, rest, SizedEventContent(v))
    ensures forall v: EventContent, rest: Bytes, more: Bytes {:trigger EncodeEventContent(v, rest) + more} ::
      EncodeEventContent(v, rest) + more == EncodeEventContent(v, rest + more)
  {
    EventContentRoundTrip();
    EventContentAppends();
  }

  datatype ReplyPreview = ReplyPreview(
    eventId: Str,
    sender: Option<Sender>,
    preview: Option<MessagePreview>)

  function EncodeReplyPreview(v: ReplyPreview, rest: Bytes): Bytes {
    EncodeString(v.eventId,
    EncodeOption(EncodeSender, v.sender,
    EncodeOption(EncodeMessagePreview, v.preview, rest)))
  }

  function DecodeReplyPreview(s: Bytes): Decoded<ReplyPreview> {
    var (eventId, s) :- DecodeString(s);
    var (sender, s) :- DecodeOption(DecodeSender, s);
    var (preview, s) :- DecodeOption(DecodeMessagePreview, s);
    Some((ReplyPreview(eventId, sender, preview), s))
  }

  predicate SizedReplyPreview(v: ReplyPreview) {
    && SizedString(v.eventId)
    && SizedOption(SizedSender, v.sender)
    && SizedOption(SizedMessagePreview, v.preview)
  }

  lemma ReplyPreviewCodec()
    ensures forall v: ReplyPreview, rest: Bytes ::
      Inverts(DecodeReplyPreview(EncodeReplyPreview(v, rest)), v, rest, SizedReplyPreview(v))
    ensures forall v: ReplyPreview, rest: Bytes, more: Bytes {:trigger EncodeReplyPreview(v, rest) + more} ::
      EncodeReplyPreview(v, rest) + more == EncodeReplyPreview(v, rest + more)
  {
    hide EncodeString, DecodeString, SizedString, EncodeOption, DecodeOption, SizedOption,
      EncodeSender, DecodeSender, SizedSender, EncodeMessagePreview, DecodeMessagePreview,
      SizedMessagePreview;
    StringCodec();
    SenderCodec();
    OptionCodec(EncodeSender, DecodeSender, SizedSender);
    MessagePreviewCodec();
    OptionCodec(EncodeMessagePreview, DecodeMessagePreview, SizedMessagePreview);
  }

  datatype Reaction = Reaction(key: Str, count: U32, byMe: bool)

  function EncodeReaction(v: Reaction, rest: Bytes): Bytes {
    EncodeString(v.key, EncodeU32(v.count, EncodeBool(v.byMe, rest)))
  }

  function DecodeReaction(s: Bytes): Decoded<Reaction> {
    var (key, s) :- DecodeString(s);
    var (count, s) :- DecodeU32(s);
    var (byMe, s) :- DecodeBool(s);
    Some((Reaction(key, count, byMe), s))
  }

  predicate SizedReaction(v: Reaction) {
    SizedString(v.key)
  }

  lemma ReactionCodec()
    ensures forall v: Reaction, rest: Bytes ::
      Inverts(DecodeReaction(EncodeReaction(v, rest)), v, rest, SizedReaction(v))
    ensures forall v: Reaction, rest: Bytes, more: Bytes {:trigger EncodeReaction(v, rest) + more} ::
      EncodeReaction(v, rest) + more == EncodeReaction(v, rest + more)
  {
    hide EncodeString, DecodeString, SizedString, EncodeU32, DecodeU32, EncodeBool, DecodeBool;
    StringCodec();
    U32Codec();
    BoolCodec();
  }

  datatype ThreadSummary = ThreadSummary(
    replyCount: U32,
    latestSender: Option<Sender>,
    latestPreview: Option<MessagePreview>)

  function EncodeThreadSummary(v: ThreadSummary, rest: Bytes): Bytes {
    EncodeU32(v.replyCount,
    EncodeOption(EncodeSender, v.latestSender,
    EncodeOption(EncodeMessagePreview, v.latestPreview, rest)))
  }

  function DecodeThreadSummary(s: Bytes): Decoded<ThreadSummary> {
    var (replyCount, s) :- DecodeU32(s);
    var (latestSender, s) :- DecodeOption(DecodeSender, s);
    var (latestPreview, s) :- DecodeOption(DecodeMessagePreview, s);
    Some((ThreadSummary(replyCount, latestSender, latestPreview), s))
  }

  predicate SizedThreadSummary(v: ThreadSummary) {
    SizedOption(SizedSender, v.latestSender) && SizedOption(SizedMessagePreview, v.latestPreview)
  }

  lemma ThreadSummaryCodec()
    ensures forall v: ThreadSummary, rest: Bytes ::
      Inverts(DecodeThreadSummary(EncodeThreadSummary(v, rest)), v, rest, SizedThreadSummary(v))
    ensures forall v: ThreadSummary, rest: Bytes, more: Bytes {:trigger EncodeThreadSummary(v, rest) + more} ::
      EncodeThreadSummary(v, rest) + more == EncodeThreadSummary(v, rest + more)
  {
    hide EncodeU32, DecodeU32, EncodeOption, DecodeOption, SizedOption, EncodeSender, DecodeSender,
      SizedSender, EncodeMessagePreview, DecodeMessagePreview, SizedMessagePreview;
    U32Codec();
    SenderCodec();
    OptionCodec(EncodeSender, DecodeSender, SizedSender);
    MessagePreviewCodec();
    OptionCodec(EncodeMessagePreview, DecodeMessagePreview, SizedMessagePreview);
  }

  datatype EventItem = EventItem(
    key: EventKey,
    eventId: Option<Str>,
    sender: Sender,
    timestampMs: I64,
    isOwn: bool,
    canEdit: bool,
    canReply: bool,
    sendState: SendState,
    content: EventContent,
    replyTo: Option<ReplyPreview>,
    reactions: seq<Reaction>,
    isEdited: bool,
    threadRoot: Option<Str>,
    thread: Option<ThreadSummary>)

  function EncodeEventItem(v: EventItem, rest: Bytes): Bytes {
    EncodeEventKey(v.key,
    EncodeOption(EncodeString, v.eventId,
    EncodeSender(v.sender,
    EncodeI64(v.timestampMs,
    EncodeBool(v.isOwn,
    EncodeBool(v.canEdit,
    EncodeBool(v.canReply,
    EncodeSendState(v.sendState,
    EncodeEventContent(v.content,
    EncodeOption(EncodeReplyPreview, v.replyTo,
    EncodeVec(EncodeReaction, v.reactions,
    EncodeBool(v.isEdited,
    EncodeOption(EncodeString, v.threadRoot,
    EncodeOption(EncodeThreadSummary, v.thread, rest))))))))))))))
  }

  function DecodeEventItem(s: Bytes): Decoded<EventItem> {
    var (key, s) :- DecodeEventKey(s);
    var (eventId, s) :- DecodeOption(DecodeString, s);
    var (sender, s) :- DecodeSender(s);
    var (timestampMs, s) :- DecodeI64(s);
    var (isOwn, s) :- DecodeBool(s);
    var (canEdit, s) :- DecodeBool(s);
    var (canReply, s) :- DecodeBool(s);
    var (sendState, s) :- DecodeSendState(s);
    var (content, s) :- DecodeEventContent(s);
    var (replyTo, s) :- DecodeOption(DecodeReplyPreview, s);
    var (reactions, s) :- DecodeVec(DecodeReaction, s);
    var (isEdited, s) :- DecodeBool(s);
    var (threadRoot, s) :- DecodeOption(DecodeString, s);
    var (thread, s) :- DecodeOption(DecodeThreadSummary, s);
    Some((EventItem(
      key, eventId, sender, timestampMs, isOwn, canEdit, canReply,
      sendState, content, replyTo, reactions, isEdited, threadRoot, thread), s))
  }

  predicate SizedEventItem(v: EventItem) {
    && SizedEventKey(v.key)
    && SizedOption(SizedString, v.eventId)
    && SizedSender(v.sender)
    && SizedSendState(v.sendState)
    && SizedEventContent(v.content)
    && SizedOption(SizedReplyPreview, v.replyTo)
    && SizedVec(SizedReaction, v.reactions)
    && SizedOption(SizedString, v.threadRoot)
    && SizedOption(SizedThreadSummary, v.thread)
  }

  lemma EventItemCodec()
    ensures forall v: EventItem, rest: Bytes ::
      Inverts(DecodeEventItem(EncodeEventItem(v, rest)), v, rest, SizedEventItem(v))
    ensures forall v: EventItem, rest: Bytes, more: Bytes {:trigger EncodeEventItem(v, rest) + more} ::
      EncodeEventItem(v, rest) + more == EncodeEventItem(v, rest + more)
  {
    hide EncodeEventKey, DecodeEventKey, SizedEventKey, EncodeOption, DecodeOption, SizedOption,
      EncodeString, DecodeString, SizedString, EncodeSender, DecodeSender, SizedSender, EncodeI64,
      DecodeI64, EncodeBool, DecodeBool, EncodeSendState, DecodeSendState, SizedSendState,
      EncodeEventContent, DecodeEventContent, SizedEventContent, EncodeReplyPreview,
      DecodeReplyPreview, SizedReplyPreview, EncodeVec, DecodeVec, SizedVec, EncodeReaction,
      DecodeReaction, SizedReaction, EncodeThreadSummary, DecodeThreadSummary, SizedThreadSummary;
    EventKeyCodec();
    OptionStringCodec();
    SenderCodec();
    I64Codec();
    BoolCodec();
    SendStateCodec();
    EventContentCodec();
    ReplyPreviewCodec();
    OptionCodec(EncodeReplyPreview, DecodeReplyPreview, SizedReplyPreview);
    ReactionCodec();
    VecCodec(EncodeReaction, DecodeReaction, SizedReaction);
    ThreadSummaryCodec();
    OptionCodec(EncodeThreadSummary, DecodeThreadSummary, SizedThreadSummary);
  }

  datatype TimelineItemKind =
    | Event(event: EventItem)
    | DateDivider(timestampMs: I64)
    | ReadMarker
    | TimelineStart

  function EncodeTimelineItemKind(v: TimelineItemKind, rest: Bytes): Bytes {
    match v
    case Event(event) => EncodeI32(0, EncodeEventItem(event, rest))
    case DateDivider(timestampMs) => EncodeI32(1, EncodeI64(timestampMs, rest))
    case ReadMarker => EncodeI32(2, rest)
    case TimelineStart => EncodeI32(3, rest)
  }

  function DecodeTimelineItemKind(s: Bytes): Decoded<TimelineItemKind> {
    var (tag, s) :- DecodeI32(s);
    match tag
    case 0 =>
      var (event, s) :- DecodeEventItem(s);
      Some((TimelineItemKind.Event(event), s))
    case 1 =>
      var (timestampMs, s) :- DecodeI64(s);
      Some((TimelineItemKind.DateDivider(timestampMs), s))
    case 2 => Some((TimelineItemKind.ReadMarker, s))
    case 3 => Some((TimelineItemKind.TimelineStart, s))
    case _ => None
  }

  predicate SizedTimelineItemKind(v: TimelineItemKind) {
    match v
    case Event(event) => SizedEventItem(event)
    case _ => true
  }

  lemma TimelineItemKindCodec()
    ensures forall v: TimelineItemKind, rest: Bytes ::
      Inverts(DecodeTimelineItemKind(EncodeTimelineItemKind(v, rest)), v, rest, SizedTimelineItemKind(v))
    ensures forall v: TimelineItemKind, rest: Bytes, more: Bytes {:trigger EncodeTimelineItemKind(v, rest) + more} ::
      EncodeTimelineItemKind(v, rest) + more == EncodeTimelineItemKind(v, rest + more)
  {
    hide EncodeI32, DecodeI32, EncodeEventItem, DecodeEventItem, SizedEventItem, EncodeI64, DecodeI64;
    I32Codec();
    EventItemCodec();
    I64Codec();
  }

  datatype TimelineItem = TimelineItem(id: Str, kind: TimelineItemKind)

  function EncodeTimelineItem(v: TimelineItem, rest: Bytes): Bytes {
    EncodeString(v.id, EncodeTimelineItemKind(v.kind, rest))
  }

  function DecodeTimelineItem(s: Bytes): Decoded<TimelineItem> {
    var (id, s) :- DecodeString(s);
    var (kind, s) :- DecodeTimelineItemKind(s);
    Some((TimelineItem(id, kind), s))
  }

  predicate SizedTimelineItem(v: TimelineItem) {
    SizedString(v.id) && SizedTimelineItemKind(v.kind)
  }

  lemma TimelineItemCodec()
    ensures forall v: TimelineItem, rest: Bytes ::
      Inverts(DecodeTimelineItem(EncodeTimelineItem(v, rest)), v, rest, SizedTimelineItem(v))
    ensures forall v: TimelineItem, rest: Bytes, more: Bytes {:trigger EncodeTimelineItem(v, rest) + more} ::
      EncodeTimelineItem(v, rest) + more == EncodeTimelineItem(v, rest + more)
  {
    hide EncodeString, DecodeString, SizedString, EncodeTimelineItemKind, DecodeTimelineItemKind,
      SizedTimelineItemKind;
    StringCodec();
    TimelineItemKindCodec();
  }
}
