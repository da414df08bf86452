/**
 * The app's decoders, generated separately from the native ones: they read what the native encoders
 * write.
 */
module AppCodec {
  import opened DiffCodec
  import opened FacadeList
  import opened Integers
  import opened RoomCodec
  import opened Sse
  import opened ThreadCodec
  import opened TimelineCodec
  import opened Utf8
  import opened Wrappers

  /** What the native decoder reads, the app reads the same way. */
  ghost predicate Agrees<T>(app: Bytes -> Decoded<T>, native: Bytes -> Decoded<T>) {
    forall s: Bytes :: SameIfRead(app(s), native(s))
  }

  ghost predicate SameIfRead<T>(app: Decoded<T>, native: Decoded<T>) {
    native.Some? ==> app == native
  }

  lemma AgreesAt<T>(app: Bytes -> Decoded<T>, native: Bytes -> Decoded<T>, s: Bytes)
    requires Agrees(app, native)
    ensures SameIfRead(app(s), native(s))
  {
  }

  // Numbers and flags, by their bytes.

  /** The value of `n` bytes in host order. */
  function AppUnsigned(n: nat, s: Bytes): Decoded<nat> {
    if |s| < n then None
    else Some((if LITTLE_ENDIAN then FromLittle(s[..n]) else FromBig(s[..n]), s[n..]))
  }

  function FromLittle(b: Bytes): nat {
    if b == [] then 0 else FromLittle(b[..|b| - 1]) + b[|b| - 1] * Power256(|b| - 1)
  }

  function FromBig(b: Bytes): nat {
    if b == [] then 0 else 256 * FromBig(b[..|b| - 1]) + b[|b| - 1]
  }

  function AppU32(s: Bytes): Decoded<U32> {
    var (x, s) :- AppUnsigned(4, s);
    if x < 0x1_0000_0000 then Some((x, s)) else None
  }

  function AppU64(s: Bytes): Decoded<U64> {
    var (x, s) :- AppUnsigned(8, s);
    if x < 0x1_0000_0000_0000_0000 then Some((x, s)) else None
  }

  /** The highest bit of a signed integer counts negative. */
  function AppI32(s: Bytes): Decoded<I32> {
    var (x, s) :- AppU32(s);
    Some((if x >= 0x8000_0000 then x - 0x1_0000_0000 else x, s))
  }

  function AppI64(s: Bytes): Decoded<I64> {
    var (x, s) :- AppU64(s);
    Some((if x >= 0x8000_0000_0000_0000 then x - 0x1_0000_0000_0000_0000 else x, s))
  }

  function AppBool(s: Bytes): Decoded<bool> {
    if s == [] then None else Some((s[0] != 0, s[1..]))
  }

  lemma {:induction false} LittleIsValue(b: Bytes)
    ensures FromLittle(b) == ValueOf(b)
  {
    if b != [] {
      LittleIsValue(b[..|b| - 1]);
      ValueOfLast(b[..|b| - 1], b[|b| - 1]);
      assert b[..|b| - 1] + [b[|b| - 1]] == b;
    }
  }

  lemma {:induction false} ValueOfLast(b: Bytes, last: Byte)
    ensures ValueOf(b + [last]) == ValueOf(b) + last * Power256(|b|)
  {
    if b == [] {
      assert [last][1..] == [];
    } else {
      ValueOfLast(b[1..], last);
      assert (b + [last])[1..] == b[1..] + [last];
      assert last * Power256(|b|) == 256 * (last * Power256(|b| - 1));
    }
  }

  lemma {:induction false} BigIsReversed(b: Bytes)
    ensures FromBig(b) == ValueOf(Reverse(b))
  {
    if b != [] {
      BigIsReversed(b[..|b| - 1]);
      assert Reverse(b)[1..] == Reverse(b[..|b| - 1]);
    }
  }

  lemma NumbersAgree()
    ensures forall s: Bytes :: SameIfRead(AppU32(s), DecodeU32(s)) && SameIfRead(AppU64(s), DecodeU64(s))
    ensures forall s: Bytes :: SameIfRead(AppI32(s), DecodeI32(s)) && SameIfRead(AppI64(s), DecodeI64(s))
    ensures forall s: Bytes :: SameIfRead(AppBool(s), DecodeBool(s))
  {
    forall n: nat, s: Bytes ensures AppUnsigned(n, s) == DecodeUnsigned(n, s) {
      if n <= |s| {
        LittleIsValue(s[..n]);
        BigIsReversed(s[..n]);
      }
    }
  }

  // Building blocks.

  /** `getUint8List(length)`: one slice of the buffer. */
  function AppBytes(s: Bytes): Decoded<Bytes> {
    var (length, s) :- AppI32(s);
    if 0 <= length <= |s| then Some((s[..length], s[length..])) else None
  }

  /** `utf8.decoder.convert`: malformed bytes throw. */
  function AppString(s: Bytes): Decoded<Str> {
    var (b, s) :- AppBytes(s);
    if WellFormed(b) then Some((b, s)) else None
  }

  function AppOption<T>(decode: Bytes -> Decoded<T>, s: Bytes): Decoded<Option<T>> {
    var (present, s) :- AppBool(s);
    if !present then Some((None, s))
    else
      var (v, s) :- decode(s);
      Some((Some(v), s))
  }

  /** A loop up to the length, so a negative length reads no items. */
  function AppList<T>(decode: Bytes -> Decoded<T>, s: Bytes): Decoded<seq<T>> {
    var (length, s) :- AppI32(s);
    DecodeItems(decode, if length < 0 then 0 else length, s)
  }

  /** `values[inner]` of an enumeration, in the order of its declaration. */
  function AppEnum<T>(values: seq<T>, s: Bytes): Decoded<T> {
    var (inner, s) :- AppI32(s);
    if 0 <= inner < |values| then Some((values[inner], s)) else None
  }

  lemma {:induction false} ByteItems(n: nat, s: Bytes)
    ensures DecodeItems(DecodeU8, n, s) == if n <= |s| then Some((s[..n], s[n..])) else None
  {
    if n > 0 && s != [] {
      ByteItems(n - 1, s[1..]);
      if n <= |s| {
        assert [s[0]] + s[1..][..n - 1] == s[..n] && s[1..][n - 1..] == s[n..];
      }
    }
  }

  lemma StringAgrees()
    ensures forall s: Bytes :: SameIfRead(AppString(s), DecodeString(s))
  {
    hide AppUnsigned, DecodeUnsigned, WellFormed;
    NumbersAgree();
    forall n: nat, s: Bytes
      ensures DecodeItems(DecodeU8, n, s) == if n <= |s| then Some((s[..n], s[n..])) else None
    {
      ByteItems(n, s);
    }
  }

  lemma OptionAgrees<T>(app: Bytes -> Decoded<T>, native: Bytes -> Decoded<T>)
    requires Agrees(app, native)
    ensures forall s: Bytes :: SameIfRead(AppOption(app, s), DecodeOption(native, s))
  {
  }

  lemma OptionAgreesAt<T>(app: Bytes -> Decoded<T>, native: Bytes -> Decoded<T>, s: Bytes)
    requires Agrees(app, native)
    ensures SameIfRead(AppOption(app, s), DecodeOption(native, s))
  {
    OptionAgrees(app, native);
  }

  lemma {:induction false} ItemsAgree<T>(app: Bytes -> Decoded<T>, native: Bytes -> Decoded<T>, n: nat, s: Bytes)
    requires Agrees(app, native)
    ensures DecodeItems(native, n, s).Some? ==> DecodeItems(app, n, s) == DecodeItems(native, n, s)
  {
    if n > 0 && native(s).Some? {
      ItemsAgree(app, native, n - 1, native(s).value.1);
    }
  }

  lemma ListAgreesAt<T>(app: Bytes -> Decoded<T>, native: Bytes -> Decoded<T>, s: Bytes)
    requires Agrees(app, native)
    ensures SameIfRead(AppList(app, s), DecodeVec(native, s))
  {
    hide AppUnsigned, DecodeUnsigned;
    NumbersAgree();
    if DecodeI32(s).Some? && DecodeI32(s).value.0 >= 0 {
      ItemsAgree(app, native, DecodeI32(s).value.0, DecodeI32(s).value.1);
    }
  }

  lemma ListAgrees<T>(app: Bytes -> Decoded<T>, native: Bytes -> Decoded<T>)
    requires Agrees(app, native)
    ensures forall s: Bytes :: SameIfRead(AppList(app, s), DecodeVec(native, s))
  {
    forall s: Bytes {
      ListAgreesAt(app, native, s);
    }
  }

  // Timeline items.

  function AppSender(s: Bytes): Decoded<Sender> {
    var (id, s) :- AppString(s);
    var (name, s) :- AppOption(AppString, s);
    var (avatarUrl, s) :- AppOption(AppString, s);
    Some((Sender(id, name, avatarUrl), s))
  }

  lemma SenderAgrees()
    ensures forall s: Bytes :: SameIfRead(AppSender(s), DecodeSender(s))
  {
    hide AppString, AppOption, AppUnsigned, DecodeUnsigned, DecodeItems;
    StringAgrees();
    OptionAgrees(AppString, DecodeString);
  }

  function AppMessagePreview(s: Bytes): Decoded<MessagePreview> {
    var (tag, s) :- AppI32(s);
    match tag
    case 0 =>
      var (body, s) :- AppString(s);
      Some((MessagePreview.Text(body), s))
    case 1 => Some((MessagePreview.Image, s))
    case 2 => Some((MessagePreview.Video, s))
    case 3 => Some((MessagePreview.Audio, s))
    case 4 => Some((MessagePreview.File, s))
    case 5 => Some((MessagePreview.Location, s))
    case 6 => Some((MessagePreview.Poll, s))
    case 7 => Some((MessagePreview.Sticker, s))
    case 8 => Some((MessagePreview.Redacted, s))
    case 9 => Some((MessagePreview.UnableToDecrypt, s))
    case 10 => Some((MessagePreview.Other, s))
    case _ => None
  }

  lemma MessagePreviewAgrees()
    ensures forall s: Bytes :: SameIfRead(AppMessagePreview(s), DecodeMessagePreview(s))
  {
    hide AppString, AppUnsigned, DecodeUnsigned, DecodeItems;
    NumbersAgree();
    StringAgrees();
  }

  const DECRYPTION_FAILURES: seq<DecryptionFailure> := [
    Unknown, SentBeforeJoined, HistoricalNoBackup, HistoricalUnverifiedDevice, Withheld, UntrustedSender]

  function AppDecryptionFailure(s: Bytes): Decoded<DecryptionFailure> {
    AppEnum(DECRYPTION_FAILURES, s)
  }

  lemma DecryptionFailureAgrees()
    ensures forall s: Bytes :: SameIfRead(AppDecryptionFailure(s), DecodeDecryptionFailure(s))
  {
    hide AppUnsigned, DecodeUnsigned, DecodeItems;
    NumbersAgree();
  }

  const MEMBERSHIP_KINDS: seq<MembershipKind> := [
    MembershipKind.Joined, Left, MembershipKind.Invited, InvitationAccepted, InvitationRejected,
    Kicked, Banned, MembershipKind.Other]

  function AppMembershipKind(s: Bytes): Decoded<MembershipKind> {
    AppEnum(MEMBERSHIP_KINDS, s)
  }

  lemma MembershipKindAgrees()
    ensures forall s: Bytes :: SameIfRead(AppMembershipKind(s), DecodeMembershipKind(s))
  {
    hide AppUnsigned, DecodeUnsigned, DecodeItems;
    NumbersAgree();
  }

  function AppEventKey(s: Bytes): Decoded<EventKey> {
    var (tag, s) :- AppI32(s);
    match tag
    case 0 =>
      var (transactionId, s) :- AppString(s);
      Some((EventKey.Local(transactionId), s))
    case 1 =>
      var (eventId, s) :- AppString(s);
      Some((EventKey.Remote(eventId), s))
    case _ => None
  }

  lemma EventKeyAgrees()
    ensures forall s: Bytes :: SameIfRead(AppEventKey(s), DecodeEventKey(s))
  {
    hide AppString, AppUnsigned, DecodeUnsigned, DecodeItems;
    NumbersAgree();
    StringAgrees();
  }

  function AppUploadProgress(s: Bytes): Decoded<UploadProgress> {
    var (currentBytes, s) :- AppU64(s);
    var (totalBytes, s) :- AppU64(s);
    Some((UploadProgress(currentBytes, totalBytes), s))
  }

  lemma UploadProgressAgrees()
    ensures forall s: Bytes :: SameIfRead(AppUploadProgress(s), DecodeUploadProgress(s))
  {
    hide AppUnsigned, DecodeUnsigned, DecodeItems;
    NumbersAgree();
  }

  function AppSendState(s: Bytes): Decoded<SendState> {
    var (tag, s) :- AppI32(s);
    match tag
    case 0 =>
      var (progress, s) :- AppOption(AppUploadProgress, s);
      Some((SendState.Sending(progress), s))
    case 1 => Some((SendState.Sent, s))
    case 2 =>
      var (recoverable, s) :- AppBool(s);
      Some((SendState.Failed(recoverable), s))
    case _ => None
  }

  lemma SendStateAgrees()
    ensures forall s: Bytes :: SameIfRead(AppSendState(s), DecodeSendState(s))
  {
    hide AppUploadProgress, AppOption, AppUnsigned, DecodeUnsigned, DecodeItems;
    NumbersAgree();
    UploadProgressAgrees();
    OptionAgrees(AppUploadProgress, DecodeUploadProgress);
  }

  function AppEventContent(s: Bytes): Decoded<EventContent> {
    var (tag, s) :- AppI32(s);
    match tag
    case 0 =>
      var (body, s) :- AppString(s);
      Some((EventContent.Text(body), s))
    case 1 =>
      var (caption, s) :- AppOption(AppString, s);
      var (filename, s) :- AppString(s);
      var (media, s) :- AppString(s);
      var (thumbnail, s) :- AppOption(AppString, s);
      var (width, s) :- AppOption(AppU32, s);
      var (height, s) :- AppOption(AppU32, s);
      var (blurhash, s) :- AppOption(AppString, s);
      Some((EventContent.Image(caption, filename, media, thumbnail, width, height, blurhash), s))
    case 2 =>
      var (caption, s) :- AppOption(AppString, s);
      var (filename, s) :- AppString(s);
      var (media, s) :- AppString(s);
      Some((EventContent.Video(caption, filename, media), s))
    case 3 =>
      var (filename, s) :- AppString(s);
      var (media, s) :- AppString(s);
      Some((EventContent.Audio(filename, media), s))
    case 4 =>
      var (caption, s) :- AppOption(AppString, s);
      var (filename, s) :- AppString(s);
      var (media, s) :- AppString(s);
      var (size, s) :- AppOption(AppU64, s);
      Some((EventContent.File(caption, filename, media, size), s))
    case 5 => Some((EventContent.Redacted, s))
    case 6 =>
      var (reason, s) :- AppDecryptionFailure(s);
      Some((EventContent.UnableToDecrypt(reason), s))
    case 7 =>
      var (userId, s) :- AppString(s);
      var (change, s) :- AppMembershipKind(s);
      Some((EventContent.Membership(userId, change), s))
    case 8 =>
      var (userId, s) :- AppString(s);
      Some((EventContent.ProfileChange(userId), s))
    case 9 =>
      var (eventType, s) :- AppString(s);
      Some((EventContent.RoomState(eventType), s))
    case 10 => Some((EventContent.Unsupported, s))
    case _ => None
  }

  lemma EventContentAgrees()
    ensures forall s: Bytes :: SameIfRead(AppEventContent(s), DecodeEventContent(s))
  {
    hide AppI32, DecodeI32, AppString, DecodeString, AppOption, DecodeOption, AppU32, DecodeU32, AppU64,
      DecodeU64, AppDecryptionFailure, DecodeDecryptionFailure, AppMembershipKind, DecodeMembershipKind;
    NumbersAgree();
    StringAgrees();
    DecryptionFailureAgrees();
    MembershipKindAgrees();
    forall s: Bytes | DecodeEventContent(s).Some? ensures AppEventContent(s) == DecodeEventContent(s) {
      var (tag, t) := DecodeI32(s).value;
      if tag == 0 {
        AgreesAt(AppString, DecodeString, t);
      } else if tag == 1 {
        OptionAgreesAt(AppString, DecodeString, t);
        var t1 := DecodeOption(DecodeString, t).value.1;
        AgreesAt(AppString, DecodeString, t1);
        var t2 := DecodeString(t1).value.1;
        AgreesAt(AppString, DecodeString, t2);
        var t3 := DecodeString(t2).value.1;
        OptionAgreesAt(AppString, DecodeString, t3);
        var t4 := DecodeOption(DecodeString, t3).value.1;
        OptionAgreesAt(AppU32, DecodeU32, t4);
        var t5 := DecodeOption(DecodeU32, t4).value.1;
        OptionAgreesAt(AppU32, DecodeU32, t5);
        var t6 := DecodeOption(DecodeU32, t5).value.1;
        OptionAgreesAt(AppString, DecodeString, t6);
      } else if tag == 2 {
        OptionAgreesAt(AppString, DecodeString, t);
        var t1 := DecodeOption(DecodeString, t).value.1;
        AgreesAt(AppString, DecodeString, t1);
        var t2 := DecodeString(t1).value.1;
        AgreesAt(AppString, DecodeString, t2);
      } else if tag == 3 {
        AgreesAt(AppString, DecodeString, t);
        var t1 := DecodeString(t).value.1;
        AgreesAt(AppString, DecodeString, t1);
      } else if tag == 4 {
        OptionAgreesAt(AppString, DecodeString, t);
        var t1 := DecodeOption(DecodeString, t).value.1;
        AgreesAt(AppString, DecodeString, t1);
        var t2 := DecodeString(t1).value.1;
        AgreesAt(AppString, DecodeString, t2);
        var t3 := DecodeString(t2).value.1;
        OptionAgreesAt(AppU64, DecodeU64, t3);
      } else if tag == 6 {
        AgreesAt(AppDecryptionFailure, DecodeDecryptionFailure, t);
      } else if tag == 7 {
        AgreesAt(AppString, DecodeString, t);
        var t1 := DecodeString(t).value.1;
        AgreesAt(AppMembershipKind, DecodeMembershipKind, t1);
      } else if tag == 8 {
        AgreesAt(AppString, DecodeString, t);
      } else if tag == 9 {
        AgreesAt(AppString, DecodeString, t);
      }
    }
  }

  function AppReplyPreview(s: Bytes): Decoded<ReplyPreview> {
    var (eventId, s) :- AppString(s);
    var (sender, s) :- AppOption(AppSender, s);
    var (preview, s) :- AppOption(AppMessagePreview, s);
    Some((ReplyPreview(eventId, sender, preview), s))
  }

  lemma ReplyPreviewAgrees()
    ensures forall s: Bytes :: SameIfRead(AppReplyPreview(s), DecodeReplyPreview(s))
  {
    hide AppString, AppSender, AppOption, AppMessagePreview, AppUnsigned, DecodeUnsigned, DecodeItems;
    StringAgrees();
    SenderAgrees();
    OptionAgrees(AppSender, DecodeSender);
    MessagePreviewAgrees();
    OptionAgrees(AppMessagePreview, DecodeMessagePreview);
  }

  function AppReaction(s: Bytes): Decoded<Reaction> {
    var (key, s) :- AppString(s);
    var (count, s) :- AppU32(s);
    var (byMe, s) :- AppBool(s);
    Some((Reaction(key, count, byMe), s))
  }

  lemma ReactionAgrees()
    ensures forall s: Bytes :: SameIfRead(AppReaction(s), DecodeReaction(s))
  {
    hide AppString, AppUnsigned, DecodeUnsigned, DecodeItems;
    StringAgrees();
    NumbersAgree();
  }

  function AppThreadSummary(s: Bytes): Decoded<ThreadSummary> {
    var (replyCount, s) :- AppU32(s);
    var (latestSender, s) :- AppOption(AppSender, s);
    var (latestPreview, s) :- AppOption(AppMessagePreview, s);
    Some((ThreadSummary(replyCount, latestSender, latestPreview), s))
  }

  lemma ThreadSummaryAgrees()
    ensures forall s: Bytes :: SameIfRead(AppThreadSummary(s), DecodeThreadSummary(s))
  {
    hide AppSender, AppOption, AppMessagePreview, AppUnsigned, DecodeUnsigned, DecodeItems;
    NumbersAgree();
    SenderAgrees();
    OptionAgrees(AppSender, DecodeSender);
    MessagePreviewAgrees();
    OptionAgrees(AppMessagePreview, DecodeMessagePreview);
  }

  function AppEventItem(s: Bytes): Decoded<EventItem> {
    var (key, s) :- AppEventKey(s);
    var (eventId, s) :- AppOption(AppString, s);
    var (sender, s) :- AppSender(s);
    var (timestampMs, s) :- AppI64(s);
    var (isOwn, s) :- AppBool(s);
    var (canEdit, s) :- AppBool(s);
    var (canReply, s) :- AppBool(s);
    var (sendState, s) :- AppSendState(s);
    var (content, s) :- AppEventContent(s);
    var (replyTo, s) :- AppOption(AppReplyPreview, s);
    var (reactions, s) :- AppList(AppReaction, s);
    var (isEdited, s) :- AppBool(s);
    var (threadRoot, s) :- AppOption(AppString, s);
    var (thread, s) :- AppOption(AppThreadSummary, s);
    Some((EventItem(
      key, eventId, sender, timestampMs, isOwn, canEdit, canReply,
      sendState, content, replyTo, reactions, isEdited, threadRoot, thread), s))
  }

  lemma EventItemAgrees()
    ensures forall s: Bytes :: SameIfRead(AppEventItem(s), DecodeEventItem(s))
  {
    hide AppEventKey, DecodeEventKey, AppString, DecodeString, AppOption, DecodeOption, AppSender,
      DecodeSender, AppI64, DecodeI64, AppBool, DecodeBool, AppSendState, DecodeSendState, AppEventContent,
      DecodeEventContent, AppReplyPreview, DecodeReplyPreview, AppReaction, DecodeReaction, AppList,
      DecodeVec, AppThreadSummary, DecodeThreadSummary;
    EventKeyAgrees();
    StringAgrees();
    SenderAgrees();
    NumbersAgree();
    SendStateAgrees();
    EventContentAgrees();
    ReplyPreviewAgrees();
    ReactionAgrees();
    ThreadSummaryAgrees();
    forall s: Bytes | DecodeEventItem(s).Some? ensures AppEventItem(s) == DecodeEventItem(s) {
      AgreesAt(AppEventKey, DecodeEventKey, s);
      var s1 := DecodeEventKey(s).value.1;
      OptionAgreesAt(AppString, DecodeString, s1);
      var s2 := DecodeOption(DecodeString, s1).value.1;
      AgreesAt(AppSender, DecodeSender, s2);
      var s3 := DecodeSender(s2).value.1;
      AgreesAt(AppI64, DecodeI64, s3);
      var s4 := DecodeI64(s3).value.1;
      AgreesAt(AppBool, DecodeBool, s4);
      var s5 := DecodeBool(s4).value.1;
      AgreesAt(AppBool, DecodeBool, s5);
      var s6 := DecodeBool(s5).value.1;
      AgreesAt(AppBool, DecodeBool, s6);
      var s7 := DecodeBool(s6).value.1;
      AgreesAt(AppSendState, DecodeSendState, s7);
      var s8 := DecodeSendState(s7).value.1;
      AgreesAt(AppEventContent, DecodeEventContent, s8);
      var s9 := DecodeEventContent(s8).value.1;
      OptionAgreesAt(AppReplyPreview, DecodeReplyPreview, s9);
      var s10 := DecodeOption(DecodeReplyPreview, s9).value.1;
      ListAgreesAt(AppReaction, DecodeReaction, s10);
      var s11 := DecodeVec(DecodeReaction, s10).value.1;
      AgreesAt(AppBool, DecodeBool, s11);
      var s12 := DecodeBool(s11).value.1;
      OptionAgreesAt(AppString, DecodeString, s12);
      var s13 := DecodeOption(DecodeString, s12).value.1;
      OptionAgreesAt(AppThreadSummary, DecodeThreadSummary, s13);
    }
  }

  function AppTimelineItemKind(s: Bytes): Decoded<TimelineItemKind> {
    var (tag, s) :- AppI32(s);
    match tag
    case 0 =>
      var (event, s) :- AppEventItem(s);
      Some((TimelineItemKind.Event(event), s))
    case 1 =>
      var (timestampMs, s) :- AppI64(s);
      Some((TimelineItemKind.DateDivider(timestampMs), s))
    case 2 => Some((TimelineItemKind.ReadMarker, s))
    case 3 => Some((TimelineItemKind.TimelineStart, s))
    case _ => None
  }

  lemma TimelineItemKindAgrees()
    ensures forall s: Bytes :: SameIfRead(AppTimelineItemKind(s), DecodeTimelineItemKind(s))
  {
    hide AppEventItem, AppUnsigned, DecodeUnsigned, DecodeItems;
    NumbersAgree();
    EventItemAgrees();
  }

  function AppTimelineItem(s: Bytes): Decoded<TimelineItem> {
    var (id, s) :- AppString(s);
    var (kind, s) :- AppTimelineItemKind(s);
    Some((TimelineItem(id, kind), s))
  }

  lemma TimelineItemAgrees()
    ensures forall s: Bytes :: SameIfRead(AppTimelineItem(s), DecodeTimelineItem(s))
  {
    hide AppString, AppTimelineItemKind, AppUnsigned, DecodeUnsigned, DecodeItems;
    StringAgrees();
    TimelineItemKindAgrees();
  }

  // Room summaries.

  const ROOM_KINDS: seq<RoomKind> := [Direct, Group]

  function AppRoomKind(s: Bytes): Decoded<RoomKind> {
    AppEnum(ROOM_KINDS, s)
  }

  lemma RoomKindAgrees()
    ensures forall s: Bytes :: SameIfRead(AppRoomKind(s), DecodeRoomKind(s))
  {
    hide AppUnsigned, DecodeUnsigned, DecodeItems;
    NumbersAgree();
  }

  const MEMBERSHIPS: seq<Membership> := [Membership.Joined, Membership.Invited]

  function AppMembership(s: Bytes): Decoded<Membership> {
    AppEnum(MEMBERSHIPS, s)
  }

  lemma MembershipAgrees()
    ensures forall s: Bytes :: SameIfRead(AppMembership(s), DecodeMembership(s))
  {
    hide AppUnsigned, DecodeUnsigned, DecodeItems;
    NumbersAgree();
  }

  const NOTIFICATION_MODES: seq<NotificationMode> := [AllMessages, MentionsOnly, Mute]

  function AppNotificationMode(s: Bytes): Decoded<NotificationMode> {
    AppEnum(NOTIFICATION_MODES, s)
  }

  lemma NotificationModeAgrees()
    ensures forall s: Bytes :: SameIfRead(AppNotificationMode(s), DecodeNotificationMode(s))
  {
    hide AppUnsigned, DecodeUnsigned, DecodeItems;
    NumbersAgree();
  }

  function AppLatestEvent(s: Bytes): Decoded<LatestEvent> {
    var (senderId, s) :- AppString(s);
    var (senderName, s) :- AppOption(AppString, s);
    var (isOwn, s) :- AppBool(s);
    var (timestampMs, s) :- AppI64(s);
    var (preview, s) :- AppMessagePreview(s);
    var (isUnsent, s) :- AppBool(s);
    Some((LatestEvent(senderId, senderName, isOwn, timestampMs, preview, isUnsent), s))
  }

  lemma LatestEventAgrees()
    ensures forall s: Bytes :: SameIfRead(AppLatestEvent(s), DecodeLatestEvent(s))
  {
    hide AppString, AppOption, AppMessagePreview, AppUnsigned, DecodeUnsigned, DecodeItems;
    StringAgrees();
    OptionAgrees(AppString, DecodeString);
    NumbersAgree();
    MessagePreviewAgrees();
  }

  function AppRoomSummary(s: Bytes): Decoded<RoomSummary> {
    var (id, s) :- AppString(s);
    var (name, s) :- AppString(s);
    var (avatarUrl, s) :- AppOption(AppString, s);
    var (kind, s) :- AppRoomKind(s);
    var (membership, s) :- AppMembership(s);
    var (isEncrypted, s) :- AppBool(s);
    var (unreadMessages, s) :- AppU32(s);
    var (unreadMentions, s) :- AppU32(s);
    var (latest, s) :- AppOption(AppLatestEvent, s);
    var (notificationMode, s) :- AppOption(AppNotificationMode, s);
    Some((RoomSummary(
      id, name, avatarUrl, kind, membership,
      isEncrypted, unreadMessages, unreadMentions, latest, notificationMode), s))
  }

  lemma RoomSummaryAgrees()
    ensures forall s: Bytes :: SameIfRead(AppRoomSummary(s), DecodeRoomSummary(s))
  {
    hide AppString, DecodeString, AppOption, DecodeOption, AppRoomKind, DecodeRoomKind, AppMembership,
      DecodeMembership, AppBool, DecodeBool, AppU32, DecodeU32, AppLatestEvent, DecodeLatestEvent,
      AppNotificationMode, DecodeNotificationMode;
    StringAgrees();
    RoomKindAgrees();
    MembershipAgrees();
    NumbersAgree();
    LatestEventAgrees();
    NotificationModeAgrees();
    forall s: Bytes | DecodeRoomSummary(s).Some? ensures AppRoomSummary(s) == DecodeRoomSummary(s) {
      AgreesAt(AppString, DecodeString, s);
      var s1 := DecodeString(s).value.1;
      AgreesAt(AppString, DecodeString, s1);
      var s2 := DecodeString(s1).value.1;
      OptionAgreesAt(AppString, DecodeString, s2);
      var s3 := DecodeOption(DecodeString, s2).value.1;
      AgreesAt(AppRoomKind, DecodeRoomKind, s3);
      var s4 := DecodeRoomKind(s3).value.1;
      AgreesAt(AppMembership, DecodeMembership, s4);
      var s5 := DecodeMembership(s4).value.1;
      AgreesAt(AppBool, DecodeBool, s5);
      var s6 := DecodeBool(s5).value.1;
      AgreesAt(AppU32, DecodeU32, s6);
      var s7 := DecodeU32(s6).value.1;
      AgreesAt(AppU32, DecodeU32, s7);
      var s8 := DecodeU32(s7).value.1;
      OptionAgreesAt(AppLatestEvent, DecodeLatestEvent, s8);
      var s9 := DecodeOption(DecodeLatestEvent, s8).value.1;
      OptionAgreesAt(AppNotificationMode, DecodeNotificationMode, s9);
    }
  }

  // Threads.

  function AppThreadEvent(s: Bytes): Decoded<ThreadEvent> {
    var (eventId, s) :- AppString(s);
    var (sender, s) :- AppSender(s);
    var (timestampMs, s) :- AppI64(s);
    var (isOwn, s) :- AppBool(s);
    var (preview, s) :- AppOption(AppMessagePreview, s);
    Some((ThreadEvent(eventId, sender, timestampMs, isOwn, preview), s))
  }

  lemma ThreadEventAgrees()
    ensures forall s: Bytes :: SameIfRead(AppThreadEvent(s), DecodeThreadEvent(s))
  {
    hide AppString, AppSender, AppMessagePreview, AppOption, AppUnsigned, DecodeUnsigned, DecodeItems;
    StringAgrees();
    SenderAgrees();
    NumbersAgree();
    MessagePreviewAgrees();
    OptionAgrees(AppMessagePreview, DecodeMessagePreview);
  }

  function AppThreadInfo(s: Bytes): Decoded<ThreadInfo> {
    var (root, s) :- AppThreadEvent(s);
    var (latest, s) :- AppOption(AppThreadEvent, s);
    var (replyCount, s) :- AppU32(s);
    Some((ThreadInfo(root, latest, replyCount), s))
  }

  lemma ThreadInfoAgrees()
    ensures forall s: Bytes :: SameIfRead(AppThreadInfo(s), DecodeThreadInfo(s))
  {
    hide AppThreadEvent, DecodeThreadEvent, AppOption, DecodeOption, AppU32, DecodeU32;
    ThreadEventAgrees();
    NumbersAgree();
    forall s: Bytes | DecodeThreadInfo(s).Some? ensures AppThreadInfo(s) == DecodeThreadInfo(s) {
      AgreesAt(AppThreadEvent, DecodeThreadEvent, s);
      var s1 := DecodeThreadEvent(s).value.1;
      OptionAgreesAt(AppThreadEvent, DecodeThreadEvent, s1);
      var s2 := DecodeOption(DecodeThreadEvent, s1).value.1;
      AgreesAt(AppU32, DecodeU32, s2);
    }
  }

  // Diffs: three decoders of one shape.

  function AppDiff<T>(decode: Bytes -> Decoded<T>, s: Bytes): Decoded<ListDiff<T>> {
    var (tag, s) :- AppI32(s);
    match tag
    case 0 =>
      var (values, s) :- AppList(decode, s);
      Some((Append(values), s))
    case 1 => Some((Clear, s))
    case 2 =>
      var (value, s) :- decode(s);
      Some((PushFront(value), s))
    case 3 =>
      var (value, s) :- decode(s);
      Some((PushBack(value), s))
    case 4 => Some((PopFront, s))
    case 5 => Some((PopBack, s))
    case 6 =>
      var (index, s) :- AppU32(s);
      var (value, s) :- decode(s);
      Some((Insert(index, value), s))
    case 7 =>
      var (index, s) :- AppU32(s);
      var (value, s) :- decode(s);
      Some((Set(index, value), s))
    case 8 =>
      var (index, s) :- AppU32(s);
      Some((Remove(index), s))
    case 9 =>
      var (length, s) :- AppU32(s);
      Some((Truncate(length), s))
    case 10 =>
      var (values, s) :- AppList(decode, s);
      Some((Reset(values), s))
    case _ => None
  }

  lemma DiffAgrees<T>(app: Bytes -> Decoded<T>, native: Bytes -> Decoded<T>)
    requires Agrees(app, native)
    ensures forall s: Bytes :: SameIfRead(AppDiff(app, s), DecodeDiff(native, s))
  {
    hide AppUnsigned, DecodeUnsigned, AppList, DecodeItems;
    NumbersAgree();
    ListAgrees(app, native);
  }

  function AppTimelineDiff(s: Bytes): Decoded<ListDiff<TimelineItem>> {
    AppDiff(AppTimelineItem, s)
  }

  function AppTimelineBatch(s: Bytes): Decoded<seq<ListDiff<TimelineItem>>> {
    AppList(AppTimelineDiff, s)
  }

  /** The app reads every well-sized batch that the native side writes, and stops behind it. */
  lemma AppReadsTimelineBatches()
    ensures forall batch: seq<ListDiff<TimelineItem>>, rest: Bytes | SizedTimelineBatch(batch) ::
      AppTimelineBatch(EncodeTimelineBatch(batch, rest)) == Some((batch, rest))
  {
    hide AppTimelineItem, DecodeTimelineItem, AppDiff, DecodeDiff, AppList, DecodeVec;
    hide EncodeTimelineBatch, SizedTimelineBatch;
    TimelineBatchCodec();
    TimelineItemAgrees();
    DiffAgrees(AppTimelineItem, DecodeTimelineItem);
    ListAgrees(AppTimelineDiff, DecodeTimelineDiff);
    forall batch: seq<ListDiff<TimelineItem>>, rest: Bytes | SizedTimelineBatch(batch)
      ensures AppTimelineBatch(EncodeTimelineBatch(batch, rest)) == Some((batch, rest))
    {
      assert Inverts(DecodeTimelineBatch(EncodeTimelineBatch(batch, rest)), batch, rest, true);
    }
  }

  function AppRoomListDiff(s: Bytes): Decoded<ListDiff<RoomSummary>> {
    AppDiff(AppRoomSummary, s)
  }

  function AppRoomListBatch(s: Bytes): Decoded<seq<ListDiff<RoomSummary>>> {
    AppList(AppRoomListDiff, s)
  }

  /** The app reads every well-sized batch that the native side writes, and stops behind it. */
  lemma AppReadsRoomListBatches()
    ensures forall batch: seq<ListDiff<RoomSummary>>, rest: Bytes | SizedRoomListBatch(batch) ::
      AppRoomListBatch(EncodeRoomListBatch(batch, rest)) == Some((batch, rest))
  {
    hide AppRoomSummary, DecodeRoomSummary, AppDiff, DecodeDiff, AppList, DecodeVec;
    hide EncodeRoomListBatch, SizedRoomListBatch;
    RoomListBatchCodec();
    RoomSummaryAgrees();
    DiffAgrees(AppRoomSummary, DecodeRoomSummary);
    ListAgrees(AppRoomListDiff, DecodeRoomListDiff);
    forall batch: seq<ListDiff<RoomSummary>>, rest: Bytes | SizedRoomListBatch(batch)
      ensures AppRoomListBatch(EncodeRoomListBatch(batch, rest)) == Some((batch, rest))
    {
      assert Inverts(DecodeRoomListBatch(EncodeRoomListBatch(batch, rest)), batch, rest, true);
    }
  }

  function AppThreadListDiff(s: Bytes): Decoded<ListDiff<ThreadInfo>> {
    AppDiff(AppThreadInfo, s)
  }

  function AppThreadListBatch(s: Bytes): Decoded<seq<ListDiff<ThreadInfo>>> {
    AppList(AppThreadListDiff, s)
  }

  /** The app reads every well-sized batch that the native side writes, and stops behind it. */
  lemma AppReadsThreadListBatches()
    ensures forall batch: seq<ListDiff<ThreadInfo>>, rest: Bytes | SizedThreadListBatch(batch) ::
      AppThreadListBatch(EncodeThreadListBatch(batch, rest)) == Some((batch, rest))
  {
    hide AppThreadInfo, DecodeThreadInfo, AppDiff, DecodeDiff, AppList, DecodeVec;
    hide EncodeThreadListBatch, SizedThreadListBatch;
    ThreadListBatchCodec();
    ThreadInfoAgrees();
    DiffAgrees(AppThreadInfo, DecodeThreadInfo);
    ListAgrees(AppThreadListDiff, DecodeThreadListDiff);
    forall batch: seq<ListDiff<ThreadInfo>>, rest: Bytes | SizedThreadListBatch(batch)
      ensures AppThreadListBatch(EncodeThreadListBatch(batch, rest)) == Some((batch, rest))
    {
      assert Inverts(DecodeThreadListBatch(EncodeThreadListBatch(batch, rest)), batch, rest, true);
    }
  }
}
