/** Which failures end a session, and which only mean that there is no connection. */
module ErrorClassification {
  import opened Wrappers

  datatype ChatError =
    | Network
    | SessionExpired
    | AccountLocked
    | Forbidden
    | NotFound
    | RateLimited(retryAfterMs: Option<nat>)
    | Crypto(message: string)
    | Storage(message: string)
    | InvalidInput(message: string)
    | Internal(message: string)

  /** The Matrix error codes that are told apart. */
  datatype ErrorKind =
    | UnknownToken
    | UserLocked | UserDeactivated | UserSuspended
    | ForbiddenKind | NotFoundKind
    | LimitExceeded(retryAfterMs: Option<nat>)
    | OtherKind

  /** The token endpoint's error codes (section 5.2 of RFC 6749). */
  datatype TokenErrorCode =
    | InvalidRequest | InvalidClient | InvalidGrant | UnauthorizedClient
    | UnsupportedGrantType | InvalidScope
    | Extension(code: string)

  datatype RequestTokenError = ServerResponse(code: TokenErrorCode) | Request | OtherRequestError

  /** `text` is the error's own rendering. */
  datatype OAuthError = RefreshToken(error: RequestTokenError, text: string) | OtherOAuth(text: string)

  datatype Transport = Transport(isConnect: bool, isTimeout: bool)

  /** `kind` is the SDK's `client_api_error_kind()` of this layer. */
  datatype HttpError = HttpError(kind: Option<ErrorKind>, cause: HttpCause)

  datatype HttpCause =
    | Reqwest(transport: Transport)
    | RefreshTokenCause(refresh: RefreshTokenError)
    | Cached(inner: HttpError)
    | OtherHttp

  datatype RefreshTokenError = RefreshTokenRequired | MatrixAuth(http: HttpError) | OAuth(oauth: OAuthError)

  datatype SdkError = SdkError(kind: Option<ErrorKind>, cause: SdkCause)

  datatype SdkCause =
    | Http(http: HttpError)
    | AuthenticationRequired
    | CryptoStoreError(text: string)
    | StateStore(text: string)
    | OlmError(text: string)
    | MegolmError(text: string)
    | OtherSdk

  /** One error of a source chain, by the type it downcasts to. */
  datatype Cause =
    | IsChat(chat: ChatError)
    | IsSdk(sdk: SdkError)
    | IsHttp(http: HttpError)
    | IsRefresh(refresh: RefreshTokenError)
    | IsOAuth(oauth: OAuthError)
    | IsReqwest(transport: Transport)
    | IsOther

  function ClassifyKind(kind: ErrorKind): Option<ChatError> {
    match kind
    case UnknownToken => Some(SessionExpired)
    case UserLocked | UserDeactivated | UserSuspended => Some(AccountLocked)
    case ForbiddenKind => Some(Forbidden)
    case NotFoundKind => Some(NotFound)
    case LimitExceeded(retryAfterMs) => Some(RateLimited(retryAfterMs))
    case OtherKind => None
  }

  predicate Unreachable(t: Transport) {
    t.isConnect || t.isTimeout
  }

  function ClassifyHttp(error: HttpError): Option<ChatError> {
    if error.kind.Some? && ClassifyKind(error.kind.value).Some? then ClassifyKind(error.kind.value)
    else
      match error.cause
      case Reqwest(transport) => if Unreachable(transport) then Some(Network) else None
      case RefreshTokenCause(refresh) => Some(ClassifyRefresh(refresh))
      case Cached(inner) => ClassifyHttp(inner)
      case OtherHttp => None
  }

  function ClassifyRefresh(error: RefreshTokenError): ChatError {
    match error
    case RefreshTokenRequired => SessionExpired
    case MatrixAuth(http) =>
      var classified := ClassifyHttp(http);
      if classified.Some? then classified.value else SessionExpired
    case OAuth(oauth) => ClassifyOAuth(oauth)
  }

  function ClassifyOAuth(error: OAuthError): ChatError {
    match error
    case RefreshToken(ServerResponse(InvalidGrant), _) => SessionExpired
    case RefreshToken(ServerResponse(InvalidClient), _) => SessionExpired
    case RefreshToken(ServerResponse(UnauthorizedClient), _) => SessionExpired
    case RefreshToken(Request, _) => Network
    case _ => Internal(error.text)
  }

  function ClassifySdk(error: SdkError): Option<ChatError> {
    if error.kind.Some? && ClassifyKind(error.kind.value).Some? then ClassifyKind(error.kind.value)
    else
      match error.cause
      case Http(http) => ClassifyHttp(http)
      case AuthenticationRequired => Some(SessionExpired)
      case CryptoStoreError(text) => Some(Storage(text))
      case StateStore(text) => Some(Storage(text))
      case OlmError(text) => Some(Crypto(text))
      case MegolmError(text) => Some(Crypto(text))
      case OtherSdk => None
  }

  /** What one error of the chain decides; `None` passes on to its source. */
  function ClassifyCause(cause: Cause): Option<ChatError> {
    match cause
    case IsChat(chat) => Some(chat)
    case IsSdk(sdk) => ClassifySdk(sdk)
    case IsHttp(http) => ClassifyHttp(http)
    case IsRefresh(refresh) => Some(ClassifyRefresh(refresh))
    case IsOAuth(oauth) => Some(ClassifyOAuth(oauth))
    case IsReqwest(transport) => if Unreachable(transport) then Some(Network) else None
    case IsOther => None
  }

  /** The first error of the chain that decides. */
  function ClassifyChain(chain: seq<Cause>): Option<ChatError> {
    if chain == [] then None
    else if ClassifyCause(chain[0]).Some? then ClassifyCause(chain[0])
    else ClassifyChain(chain[1..])
  }

  /** `classify_error`: a chain that decides nothing is an internal error. */
  function ClassifyError(chain: seq<Cause>, text: string): ChatError {
    var classified := ClassifyChain(chain);
    if classified.Some? then classified.value else Internal(text)
  }

  predicate EndsSession(error: ChatError) {
    error.SessionExpired? || error.AccountLocked?
  }

  // The mutual recursion, flattened: layers of wrapping around one core.

  datatype Core = Link(transport: Transport) | Token(oauth: OAuthError) | NoRefreshToken | Opaque

  function CoreOf(error: HttpError): Core {
    match error.cause
    case Reqwest(transport) => Link(transport)
    case RefreshTokenCause(RefreshTokenRequired) => NoRefreshToken
    case RefreshTokenCause(MatrixAuth(http)) => CoreOf(http)
    case RefreshTokenCause(OAuth(oauth)) => Token(oauth)
    case Cached(inner) => CoreOf(inner)
    case OtherHttp => Opaque
  }

  /** The API error kinds of all layers, outermost first. */
  function Kinds(error: HttpError): seq<Option<ErrorKind>> {
    [error.kind] +
    match error.cause
    case RefreshTokenCause(MatrixAuth(http)) => Kinds(http)
    case Cached(inner) => Kinds(inner)
    case _ => []
  }

  predicate RefreshedByMatrixAuth(error: HttpError) {
    match error.cause
    case RefreshTokenCause(MatrixAuth(http)) => true
    case Cached(inner) => RefreshedByMatrixAuth(inner)
    case _ => false
  }

  function FirstKnown(kinds: seq<Option<ErrorKind>>): Option<ChatError> {
    if kinds == [] then None
    else if kinds[0].Some? && ClassifyKind(kinds[0].value).Some? then ClassifyKind(kinds[0].value)
    else FirstKnown(kinds[1..])
  }

  function CoreMeaning(core: Core): Option<ChatError> {
    match core
    case Link(transport) => if Unreachable(transport) then Some(Network) else None
    case Token(oauth) => Some(ClassifyOAuth(oauth))
    case NoRefreshToken => Some(SessionExpired)
    case Opaque => None
  }

  /**
   * However deeply a failure is wrapped: the outermost known API error kind decides, else the core,
   * else a failed refresh ends the session.
   */
  lemma {:induction false} HttpByLayers(error: HttpError)
    ensures ClassifyHttp(error) ==
      if FirstKnown(Kinds(error)).Some? then FirstKnown(Kinds(error))
      else if CoreMeaning(CoreOf(error)).Some? then CoreMeaning(CoreOf(error))
      else if RefreshedByMatrixAuth(error) then Some(SessionExpired)
      else None
  {
    assert Kinds(error)[0] == error.kind;
    match error.cause
    case RefreshTokenCause(MatrixAuth(http)) =>
      HttpByLayers(http);
      assert Kinds(error)[1..] == Kinds(http);
    case Cached(inner) =>
      HttpByLayers(inner);
      assert Kinds(error)[1..] == Kinds(inner);
    case _ =>
      assert Kinds(error)[1..] == [];
  }

  /** A core that only says that the server or the token endpoint could not be reached. */
  predicate NoConnection(core: Core) {
    match core
    case Link(transport) => Unreachable(transport)
    case Token(RefreshToken(Request, _)) => true
    case _ => false
  }

  /** Lack of connectivity is recognized under any wrapping, and nothing else is taken for it. */
  lemma {:induction false} NetworkMeansNoConnection(error: HttpError)
    ensures ClassifyHttp(error) == Some(Network) <==>
      FirstKnown(Kinds(error)).None? && NoConnection(CoreOf(error))
  {
    HttpByLayers(error);
    KindsAreNotNetwork(Kinds(error));
  }

  lemma {:induction false} KindsAreNotNetwork(kinds: seq<Option<ErrorKind>>)
    ensures FirstKnown(kinds) != Some(Network)
  {
    if kinds != [] { KindsAreNotNetwork(kinds[1..]); }
  }

  predicate EndingKind(kind: ErrorKind) {
    kind.UnknownToken? || kind.UserLocked? || kind.UserDeactivated? || kind.UserSuspended?
  }

  /** The outermost API error kind that is told apart at all. */
  function FirstToldApart(kinds: seq<Option<ErrorKind>>): Option<ErrorKind> {
    if kinds == [] then None
    else if kinds[0].Some? && !kinds[0].value.OtherKind? then kinds[0]
    else FirstToldApart(kinds[1..])
  }

  lemma {:induction false} KnownKindsAreToldApart(kinds: seq<Option<ErrorKind>>)
    ensures FirstKnown(kinds) ==
      if FirstToldApart(kinds).Some? then ClassifyKind(FirstToldApart(kinds).value) else None
  {
    if kinds != [] { KnownKindsAreToldApart(kinds[1..]); }
  }

  predicate RejectedToken(core: Core) {
    && core.Token? && core.oauth.RefreshToken? && core.oauth.error.ServerResponse?
    && core.oauth.error.code in {InvalidGrant, InvalidClient, UnauthorizedClient}
  }

  /**
   * A session ends exactly when the server names a revoked token or a locked account, when the
   * token endpoint rejects the refresh token, or when a refresh without OAuth fails for no other
   * recognized reason; a locked account is told from an expired session by its kind alone.
   */
  lemma SessionEndsExactlyWhen(error: HttpError)
    ensures
      var kind, core, classified := FirstToldApart(Kinds(error)), CoreOf(error), ClassifyHttp(error);
      var refused := RejectedToken(core) || core.NoRefreshToken?;
      var failed := RefreshedByMatrixAuth(error) && !NoConnection(core) && !core.Token?;
      && (classified.Some? && EndsSession(classified.value)
          <==> (if kind.Some? then EndingKind(kind.value) else refused || failed))
      && (classified == Some(AccountLocked) <==>
          kind.Some? && EndingKind(kind.value) && !kind.value.UnknownToken?)
  {
    HttpByLayers(error);
    KnownKindsAreToldApart(Kinds(error));
    ToldApartIsKnown(Kinds(error));
  }

  lemma {:induction false} ToldApartIsKnown(kinds: seq<Option<ErrorKind>>)
    ensures FirstToldApart(kinds).Some? ==> !FirstToldApart(kinds).value.OtherKind?
  {
    if kinds != [] { ToldApartIsKnown(kinds[1..]); }
  }

  /** A chain is decided by its first deciding error: layers of context in front change nothing. */
  lemma {:induction false} FirstDecides(chain: seq<Cause>, k: nat)
    requires k < |chain| && ClassifyCause(chain[k]).Some?
    requires forall i | 0 <= i < k :: ClassifyCause(chain[i]).None?
    ensures ClassifyChain(chain) == ClassifyCause(chain[k])
  {
    if k > 0 {
      FirstDecides(chain[1..], k - 1);
    }
  }

  /** Failing to reach a server, however wrapped. */
  predicate ConnectivityCause(cause: Cause) {
    || cause == IsChat(Network)
    || (CoreOfCause(cause).Some? && FirstKnown(KindsOfCause(cause)).None? && NoConnection(CoreOfCause(cause).value))
  }

  /** What an error of the chain is about when all wrapping is removed, if it is a failed request. */
  function CoreOfCause(cause: Cause): Option<Core> {
    match cause
    case IsHttp(http) => Some(CoreOf(http))
    case IsSdk(SdkError(_, Http(http))) => Some(CoreOf(http))
    case IsRefresh(MatrixAuth(http)) => Some(CoreOf(http))
    case IsRefresh(OAuth(oauth)) => Some(Token(oauth))
    case IsRefresh(RefreshTokenRequired) => Some(NoRefreshToken)
    case IsOAuth(oauth) => Some(Token(oauth))
    case IsReqwest(transport) => Some(Link(transport))
    case _ => None
  }

  /** The API error kinds of all its layers, outermost first. */
  function KindsOfCause(cause: Cause): seq<Option<ErrorKind>> {
    match cause
    case IsHttp(http) => Kinds(http)
    case IsSdk(SdkError(kind, Http(http))) => [kind] + Kinds(http)
    case IsSdk(SdkError(kind, _)) => [kind]
    case IsRefresh(MatrixAuth(http)) => Kinds(http)
    case _ => []
  }

  predicate RefreshedByMatrixAuthCause(cause: Cause) {
    match cause
    case IsHttp(http) => RefreshedByMatrixAuth(http)
    case IsSdk(SdkError(_, Http(http))) => RefreshedByMatrixAuth(http)
    case IsRefresh(MatrixAuth(http)) => true
    case _ => false
  }

  /** An error that ends the session wherever it decides a chain. */
  predicate EndingCause(cause: Cause) {
    var kind, core := FirstToldApart(KindsOfCause(cause)), CoreOfCause(cause);
    if kind.Some? then EndingKind(kind.value)
    else
      || (cause.IsChat? && EndsSession(cause.chat))
      || (cause.IsSdk? && cause.sdk.cause.AuthenticationRequired?)
      || (core.Some? && (RejectedToken(core.value) || core.value.NoRefreshToken?))
      || (core.Some? && RefreshedByMatrixAuthCause(cause) && !NoConnection(core.value) && !core.value.Token?)
  }

  lemma CauseEndsWhen(cause: Cause)
    ensures ClassifyCause(cause).Some? && EndsSession(ClassifyCause(cause).value) <==> EndingCause(cause)
  {
    KnownKindsAreToldApart(KindsOfCause(cause));
    ToldApartIsKnown(KindsOfCause(cause));
    match cause
    case IsHttp(http) => SessionEndsExactlyWhen(http);
    case IsSdk(SdkError(kind, Http(http))) =>
      SessionEndsExactlyWhen(http);
      assert ([kind] + Kinds(http))[1..] == Kinds(http);
    case IsSdk(SdkError(kind, _)) =>
      assert [kind][1..] == [];
    case IsRefresh(MatrixAuth(http)) =>
      HttpByLayers(http);
      SessionEndsExactlyWhen(http);
    case _ =>
  }

  lemma CauseIsNetworkWhen(cause: Cause)
    ensures ClassifyCause(cause) == Some(Network) <==> ConnectivityCause(cause)
  {
    match cause
    case IsHttp(http) => NetworkMeansNoConnection(http);
    case IsSdk(SdkError(kind, Http(http))) =>
      NetworkMeansNoConnection(http);
      KindsAreNotNetwork([kind]);
      assert ([kind] + Kinds(http))[1..] == Kinds(http);
    case IsRefresh(MatrixAuth(http)) => NetworkMeansNoConnection(http);
    case _ =>
  }

  /** Causes that decide nothing, then one that shows lack of connectivity, then anything. */
  ghost predicate ConnectivityChain(chain: seq<Cause>) {
    exists k :: 0 <= k < |chain| && ConnectivityCause(chain[k])
      && forall i | 0 <= i < k :: ClassifyCause(chain[i]).None?
  }

  /** Exactly the connectivity failures are reported as such, so they never end a session. */
  lemma {:induction false} ChainIsNetworkWhen(chain: seq<Cause>, text: string)
    ensures ClassifyError(chain, text) == Network <==> ConnectivityChain(chain)
    ensures ConnectivityChain(chain) ==> !EndsSession(ClassifyError(chain, text))
  {
    if chain != [] {
      CauseIsNetworkWhen(chain[0]);
      if ClassifyCause(chain[0]).None? {
        ChainIsNetworkWhen(chain[1..], text);
        if ConnectivityChain(chain[1..]) {
          var k :| 0 <= k < |chain[1..]| && ConnectivityCause(chain[1..][k])
            && forall i | 0 <= i < k :: ClassifyCause(chain[1..][i]).None?;
          assert ConnectivityCause(chain[k + 1]);
          assert forall i | 0 <= i < k + 1 :: i == 0 || chain[i] == chain[1..][i - 1];
        }
        if ConnectivityChain(chain) {
          var k :| 0 <= k < |chain| && ConnectivityCause(chain[k])
            && forall i | 0 <= i < k :: ClassifyCause(chain[i]).None?;
          assert k > 0 && chain[1..][k - 1] == chain[k];
        }
      }
    }
  }

  /** Causes that decide nothing, then one that ends the session, then anything. */
  ghost predicate EndingChain(chain: seq<Cause>) {
    exists k :: 0 <= k < |chain| && EndingCause(chain[k])
      && forall i | 0 <= i < k :: ClassifyCause(chain[i]).None?
  }

  /** Exactly these failures are reported as the end of a session. */
  lemma {:induction false} ChainEndsSessionWhen(chain: seq<Cause>, text: string)
    ensures EndsSession(ClassifyError(chain, text)) <==> EndingChain(chain)
  {
    if chain != [] {
      CauseEndsWhen(chain[0]);
      if ClassifyCause(chain[0]).None? {
        ChainEndsSessionWhen(chain[1..], text);
        if EndingChain(chain[1..]) {
          var k :| 0 <= k < |chain[1..]| && EndingCause(chain[1..][k])
            && forall i | 0 <= i < k :: ClassifyCause(chain[1..][i]).None?;
          assert EndingCause(chain[k + 1]);
          assert forall i | 0 <= i < k + 1 :: i == 0 || chain[i] == chain[1..][i - 1];
        }
        if EndingChain(chain) {
          var k :| 0 <= k < |chain| && EndingCause(chain[k])
            && forall i | 0 <= i < k :: ClassifyCause(chain[i]).None?;
          assert k > 0 && chain[1..][k - 1] == chain[k];
        }
      }
    }
  }

  /**
   * Of the answers of a token endpoint, under any wrapping without a known API error kind and behind
   * any layers of context, exactly three codes sign the user out.
   */
  lemma RejectedTokensEndSessions(chain: seq<Cause>, k: nat, code: TokenErrorCode, answer: string, text: string)
    requires k < |chain| && forall i | 0 <= i < k :: ClassifyCause(chain[i]).None?
    requires CoreOfCause(chain[k]) == Some(Token(RefreshToken(ServerResponse(code), answer)))
    requires FirstToldApart(KindsOfCause(chain[k])).None?
    ensures EndsSession(ClassifyError(chain, text)) <==> code in {InvalidGrant, InvalidClient, UnauthorizedClient}
  {
    TokenAnswerDecides(chain[k]);
    FirstDecides(chain, k);
    CauseEndsWhen(chain[k]);
  }

  lemma TokenAnswerDecides(cause: Cause)
    requires CoreOfCause(cause).Some? && CoreOfCause(cause).value.Token?
    ensures ClassifyCause(cause).Some?
  {
    match cause
    case IsHttp(http) => HttpByLayers(http);
    case IsSdk(SdkError(_, Http(http))) => HttpByLayers(http);
    case IsRefresh(MatrixAuth(http)) => HttpByLayers(http);
    case _ =>
  }

  // Every answer by the failures that give it.

  predicate KindMeans(kind: ErrorKind, answer: ChatError) {
    match answer
    case SessionExpired => kind.UnknownToken?
    case AccountLocked => kind.UserLocked? || kind.UserDeactivated? || kind.UserSuspended?
    case Forbidden => kind.ForbiddenKind?
    case NotFound => kind.NotFoundKind?
    case RateLimited(delay) => kind == LimitExceeded(delay)
    case _ => false
  }

  /** Without an API error kind that is told apart, what remains when all wrapping is removed. */
  predicate RestMeans(cause: Cause, answer: ChatError) {
    var core := CoreOfCause(cause);
    match answer
    case Network => core.Some? && NoConnection(core.value)
    case SessionExpired =>
      || (cause.IsSdk? && cause.sdk.cause.AuthenticationRequired?)
      || (core.Some? && (RejectedToken(core.value) || core.value.NoRefreshToken?))
      || (core.Some? && RefreshedByMatrixAuthCause(cause) && !NoConnection(core.value) && !core.value.Token?)
    case Storage(text) =>
      cause.IsSdk? && (cause.sdk.cause == CryptoStoreError(text) || cause.sdk.cause == StateStore(text))
    case Crypto(text) => cause.IsSdk? && (cause.sdk.cause == OlmError(text) || cause.sdk.cause == MegolmError(text))
    case Internal(text) =>
      core.Some? && core.value.Token? && !RejectedToken(core.value) && !NoConnection(core.value)
      && core.value.oauth.text == text
    case _ => false
  }

  /** The error means this answer: it is that answer, or its outermost told-apart kind or its rest means it. */
  predicate Means(cause: Cause, answer: ChatError) {
    var kind := FirstToldApart(KindsOfCause(cause));
    if cause.IsChat? then cause.chat == answer
    else if kind.Some? then KindMeans(kind.value, answer)
    else RestMeans(cause, answer)
  }

  ghost predicate MeansNothing(cause: Cause) {
    forall answer :: !Means(cause, answer)
  }

  lemma KindMeansOne(kind: ErrorKind, answer: ChatError)
    ensures ClassifyKind(kind) == Some(answer) <==> KindMeans(kind, answer)
  {
  }

  lemma HttpMeans(http: HttpError, answer: ChatError)
    ensures ClassifyHttp(http) == Some(answer) <==> Means(IsHttp(http), answer)
  {
    HttpByLayers(http);
    KnownKindsAreToldApart(Kinds(http));
    ToldApartIsKnown(Kinds(http));
    if FirstToldApart(Kinds(http)).Some? {
      KindMeansOne(FirstToldApart(Kinds(http)).value, answer);
    }
  }

  lemma CauseMeans(cause: Cause, answer: ChatError)
    ensures ClassifyCause(cause) == Some(answer) <==> Means(cause, answer)
  {
    match cause
    case IsHttp(http) => HttpMeans(http, answer);
    case IsSdk(sdk) => SdkMeans(sdk, answer);
    case IsRefresh(MatrixAuth(http)) => RefreshMeans(http, answer);
    case _ =>
  }

  lemma SdkMeans(sdk: SdkError, answer: ChatError)
    ensures ClassifySdk(sdk) == Some(answer) <==> Means(IsSdk(sdk), answer)
  {
    var kinds := KindsOfCause(IsSdk(sdk));
    if sdk.kind.Some? {
      KindMeansOne(sdk.kind.value, answer);
    }
    match sdk.cause
    case Http(http) =>
      HttpMeans(http, answer);
      assert kinds[1..] == Kinds(http);
    case _ =>
      assert kinds == [sdk.kind] && kinds[1..] == [] && FirstToldApart([]).None?;
      assert FirstToldApart(kinds) == if sdk.kind.Some? && !sdk.kind.value.OtherKind? then sdk.kind else None;
      assert CoreOfCause(IsSdk(sdk)).None?;
  }

  lemma RefreshMeans(http: HttpError, answer: ChatError)
    ensures ClassifyRefresh(MatrixAuth(http)) == answer <==> Means(IsRefresh(MatrixAuth(http)), answer)
  {
    HttpMeans(http, answer);
    HttpByLayers(http);
    KnownKindsAreToldApart(Kinds(http));
    ToldApartIsKnown(Kinds(http));
  }

  ghost predicate FirstMeans(chain: seq<Cause>, k: nat, answer: ChatError) {
    k < |chain| && Means(chain[k], answer) && forall i | 0 <= i < k :: MeansNothing(chain[i])
  }

  /**
   * A chain of errors gives an answer exactly when its first error that means anything means that
   * answer, or nothing in it means anything and the answer repeats the text as an internal error.
   */
  lemma {:induction false} ChainMeans(chain: seq<Cause>, text: string, answer: ChatError)
    ensures ClassifyError(chain, text) == answer <==>
      || (exists k: nat :: FirstMeans(chain, k, answer))
      || (answer == Internal(text) && forall i | 0 <= i < |chain| :: MeansNothing(chain[i]))
  {
    hide Means, ClassifyCause;
    if chain != [] {
      var rest := chain[1..];
      CauseMeans(chain[0], answer);
      NothingIsUndecided(chain[0]);
      ChainMeans(rest, text, answer);
      assert forall i | 0 <= i < |rest| :: rest[i] == chain[i + 1];
      if MeansNothing(chain[0]) {
        if k: nat :| FirstMeans(rest, k, answer) {
          assert forall i | 0 <= i < k + 1 :: i == 0 || chain[i] == rest[i - 1];
          assert FirstMeans(chain, k + 1, answer);
        }
        if k: nat :| FirstMeans(chain, k, answer) {
          assert k > 0;
          assert FirstMeans(rest, k - 1, answer);
        }
        assert (forall i | 0 <= i < |chain| :: MeansNothing(chain[i])) <==>
          (forall i | 0 <= i < |rest| :: MeansNothing(rest[i])) by
        {
          assert forall i | 0 < i < |chain| :: chain[i] == rest[i - 1];
        }
      } else if Means(chain[0], answer) {
        assert FirstMeans(chain, 0, answer);
      }
    }
  }

  lemma NothingIsUndecided(cause: Cause)
    ensures MeansNothing(cause) <==> ClassifyCause(cause).None?
  {
    hide Means, ClassifyCause;
    if ClassifyCause(cause).Some? {
      CauseMeans(cause, ClassifyCause(cause).value);
    } else {
      forall answer ensures !Means(cause, answer) {
        CauseMeans(cause, answer);
      }
    }
  }
}
