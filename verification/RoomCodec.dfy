/** Room summaries on the wire. */
module RoomCodec {
  import opened Integers
  import opened Sse
  import opened TimelineCodec
  import opened Utf8
  import opened Wrappers

  datatype RoomKind = Direct | Group

  function EncodeRoomKind(v: RoomKind, rest: Bytes): Bytes {
    match v
    case Direct => EncodeI32(0, rest)
    case Group => EncodeI32(1, rest)
  }

  function DecodeRoomKind(s: Bytes): Decoded<RoomKind> {
    var (tag, s) :- DecodeI32(s);
    match tag
    case 0 => Some((RoomKind.Direct, s))
    case 1 => Some((RoomKind.Group, s))
    case _ => None
  }

  predicate SizedRoomKind(v: RoomKind) {
    true
  }

  lemma RoomKindCodec()
    ensures forall v: RoomKind, rest: Bytes ::
      Inverts(DecodeRoomKind(EncodeRoomKind(v, rest)), v, rest, SizedRoomKind(v))
    ensures forall v: RoomKind, rest: Bytes, more: Bytes {:trigger EncodeRoomKind(v, rest) + more} ::
      EncodeRoomKind(v, rest) + more == EncodeRoomKind(v, rest + more)
  {
    hide EncodeI32, DecodeI32;
    I32Codec();
  }

  datatype Membership = Joined | Invited

  function EncodeMembership(v: Membership, rest: Bytes): Bytes {
    match v
    case Joined => EncodeI32(0, rest)
    case Invited => EncodeI32(1, rest)
  }

  function DecodeMembership(s: Bytes): Decoded<Membership> {
    var (tag, s) :- DecodeI32(s);
    match tag
    case 0 => Some((Membership.Joined, s))
    case 1 => Some((Membership.Invited, s))
    case _ => None
  }

  predicate SizedMembership(v: Membership) {
    true
  }

  lemma MembershipCodec()
    ensures forall v: Membership, rest: Bytes ::
      Inverts(DecodeMembership(EncodeMembership(v, rest)), v, rest, SizedMembership(v))
    ensures forall v: Membership, rest: Bytes, more: Bytes {:trigger EncodeMembership(v, rest) + more} ::
      EncodeMembership(v, rest) + more == EncodeMembership(v, rest + more)
  {
    hide EncodeI32, DecodeI32;
    I32Codec();
  }

  datatype NotificationMode = AllMessages | MentionsOnly | Mute

  function EncodeNotificationMode(v: NotificationMode, rest: Bytes): Bytes {
    match v
    case AllMessages => EncodeI32(0, rest)
    case MentionsOnly => EncodeI32(1, rest)
    case Mute => EncodeI32(2, rest)
  }

  function DecodeNotificationMode(s: Bytes): Decoded<NotificationMode> {
    var (tag, s) :- DecodeI32(s);
    match tag
    case 0 => Some((NotificationMode.AllMessages, s))
    case 1 => Some((NotificationMode.MentionsOnly, s))
    case 2 => Some((NotificationMode.Mute, s))
    case _ => None
  }

  predicate SizedNotificationMode(v: NotificationMode) {
    true
  }

  lemma NotificationModeCodec()
    ensures forall v: NotificationMode, rest: Bytes ::
      Inverts(DecodeNotificationMode(EncodeNotificationMode(v, rest)), v, rest, SizedNotificationMode(v))
    ensures forall v: NotificationMode, rest: Bytes, more: Bytes {:trigger EncodeNotificationMode(v, rest) + more} ::
      EncodeNotificationMode(v, rest) + more == EncodeNotificationMode(v, rest + more)
  {
    hide EncodeI32, DecodeI32;
    I32Codec();
  }

  datatype LatestEvent = LatestEvent(
    senderId: Str,
    senderName: Option<Str>,
    isOwn: bool,
    timestampMs: I64,
    preview: MessagePreview,
    isUnsent: bool)

  function EncodeLatestEvent(v: LatestEvent, rest: Bytes): Bytes {
    EncodeString(v.senderId,
    EncodeOption(EncodeString, v.senderName,
    EncodeBool(v.isOwn,
    EncodeI64(v.timestampMs,
    EncodeMessagePreview(v.preview,
    EncodeBool(v.isUnsent, rest))))))
  }

  function DecodeLatestEvent(s: Bytes): Decoded<LatestEvent> {
    var (senderId, s) :- DecodeString(s);
    var (senderName, s) :- DecodeOption(DecodeString, s);
    var (isOwn, s) :- DecodeBool(s);
    var (timestampMs, s) :- DecodeI64(s);
    var (preview, s) :- DecodeMessagePreview(s);
    var (isUnsent, s) :- DecodeBool(s);
    Some((LatestEvent(senderId, senderName, isOwn, timestampMs, preview, isUnsent), s))
  }

  predicate SizedLatestEvent(v: LatestEvent) {
    && SizedString(v.senderId)
    && SizedOption(SizedString, v.senderName)
    && SizedMessagePreview(v.preview)
  }

  lemma LatestEventCodec()
    ensures forall v: LatestEvent, rest: Bytes ::
      Inverts(DecodeLatestEvent(EncodeLatestEvent(v, rest)), v, rest, SizedLatestEvent(v))
    ensures forall v: LatestEvent, rest: Bytes, more: Bytes {:trigger EncodeLatestEvent(v, rest) + more} ::
      EncodeLatestEvent(v, rest) + more == EncodeLatestEvent(v, rest + more)
  {
    hide EncodeString, DecodeString, SizedString, EncodeOption, DecodeOption, SizedOption, EncodeBool,
      DecodeBool, EncodeI64, DecodeI64, EncodeMessagePreview, DecodeMessagePreview, SizedMessagePreview;
    StringCodec();
    OptionStringCodec();
    BoolCodec();
    I64Codec();
    MessagePreviewCodec();
  }

  datatype RoomSummary = RoomSummary(
    id: Str,
    name: Str,
    avatarUrl: Option<Str>,
    kind: RoomKind,
    membership: Membership,
    isEncrypted: bool,
    unreadMessages: U32,
    unreadMentions: U32,
    latest: Option<LatestEvent>,
    notificationMode: Option<NotificationMode>)

  function EncodeRoomSummary(v: RoomSummary, rest: Bytes): Bytes {
    EncodeString(v.id,
    EncodeString(v.name,
    EncodeOption(EncodeString, v.avatarUrl,
    EncodeRoomKind(v.kind,
    EncodeMembership(v.membership,
    EncodeBool(v.isEncrypted,
    EncodeU32(v.unreadMessages,
    EncodeU32(v.unreadMentions,
    EncodeOption(EncodeLatestEvent, v.latest,
    EncodeOption(EncodeNotificationMode, v.notificationMode, rest))))))))))
  }

  function DecodeRoomSummary(s: Bytes): Decoded<RoomSummary> {
    var (id, s) :- DecodeString(s);
    var (name, s) :- DecodeString(s);
    var (avatarUrl, s) :- DecodeOption(DecodeString, s);
    var (kind, s) :- DecodeRoomKind(s);
    var (membership, s) :- DecodeMembership(s);
    var (isEncrypted, s) :- DecodeBool(s);
    var (unreadMessages, s) :- DecodeU32(s);
    var (unreadMentions, s) :- DecodeU32(s);
    var (latest, s) :- DecodeOption(DecodeLatestEvent, s);
    var (notificationMode, s) :- DecodeOption(DecodeNotificationMode, s);
    Some((RoomSummary(
      id, name, avatarUrl, kind, membership,
      isEncrypted, unreadMessages, unreadMentions, latest, notificationMode), s))
  }

  predicate SizedRoomSummary(v: RoomSummary) {
    && SizedString(v.id)
    && SizedString(v.name)
    && SizedOption(SizedString, v.avatarUrl)
    && SizedRoomKind(v.kind)
    && SizedMembership(v.membership)
    && SizedOption(SizedLatestEvent, v.latest)
    && SizedOption(SizedNotificationMode, v.notificationMode)
  }

  lemma RoomSummaryCodec()
    ensures forall v: RoomSummary, rest: Bytes ::
      Inverts(DecodeRoomSummary(EncodeRoomSummary(v, rest)), v, rest, SizedRoomSummary(v))
    ensures forall v: RoomSummary, rest: Bytes, more: Bytes {:trigger EncodeRoomSummary(v, rest) + more} ::
      EncodeRoomSummary(v, rest) + more == EncodeRoomSummary(v, rest + more)
  {
    hide EncodeString, DecodeString, SizedString, EncodeOption, DecodeOption, SizedOption,
      EncodeRoomKind, DecodeRoomKind, SizedRoomKind, EncodeMembership, DecodeMembership,
      SizedMembership, EncodeBool, DecodeBool, EncodeU32, DecodeU32, EncodeLatestEvent,
      DecodeLatestEvent, SizedLatestEvent, EncodeNotificationMode, DecodeNotificationMode,
      SizedNotificationMode;
    StringCodec();
    OptionStringCodec();
    RoomKindCodec();
    MembershipCodec();
    BoolCodec();
    U32Codec();
    LatestEventCodec();
    OptionCodec(EncodeLatestEvent, DecodeLatestEvent, SizedLatestEvent);
    NotificationModeCodec();
    OptionCodec(EncodeNotificationMode, DecodeNotificationMode, SizedNotificationMode);
  }
}
