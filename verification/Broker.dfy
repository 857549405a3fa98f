/** The refresh-token rotation broker of agents/hermes/host/tool-gateway-broker.ts: the code between
    two `await`s as functions on the shared state, and as methods that update it in place.  The
    portal, the OpenShell calls and the clock are parameters; SHA-256 is taken to be injective. */
module Broker {
  import opened Wrappers

  type Token = string

  /** An ideal hash: equal digests come from equal tokens. */
  datatype Digest = Sha256(preimage: Token)

  /** A state file, as far as the broker's decisions depend on it. */
  datatype FileState = FileState(
    providerName: string, brokerToken: Token, brokerHash: Option<Digest>, refreshHash: Digest,
    keyExpiresAt: Option<real>)

  datatype CacheEntry = CacheEntry(accessToken: string, expiresAt: real)

  /** A state file as loaded by one request: `state` may have gone stale. */
  datatype LoadedFile = LoadedFile(file: string, state: FileState)

  /** What all requests share: the access-token cache, the state files, the refresh token in the
      process environment, and the refresh tokens held by the OpenShell providers. */
  datatype Store = Store(
    cache: map<Digest, CacheEntry>, files: map<string, FileState>, env: Token, providers: map<string, Token>)

  datatype Error = ReauthRequired | RefreshFailed | ProviderUpdateFailed | AgentKeyFailed

  /** The portal's answer to a refresh.  An empty token stands for a missing one. */
  datatype Reply =
    | HttpError(status: nat)
    | Payload(accessToken: string, expiresIn: Option<real>, refreshToken: Token)

  const SKEW_MS := 120_000.0
  const KEY_SKEW_MS := 300_000.0
  const KEY_TTL_MS := 1_800_000.0

  predicate TokenExpiresSoon(e: CacheEntry, now: real) {
    e.expiresAt == 0.0 || e.expiresAt - now < SKEW_MS
  }

  /** There is an access token, which expires, and not within two minutes. */
  predicate Usable(e: CacheEntry, now: real) {
    e.accessToken != "" && e.expiresAt != 0.0 && e.expiresAt - now >= 120_000.0
  }

  predicate KeyExpiresSoon(state: FileState, now: real) {
    state.keyExpiresAt.None? || state.keyExpiresAt.value - now < KEY_SKEW_MS
  }

  /** refreshAccessToken up to its first `await`: the cached access token, if it can be used. */
  function CachedAccessToken(s: Store, token: Token, now: real): (r: Option<string>)
    ensures r.Some? <==> Sha256(token) in s.cache && Usable(s.cache[Sha256(token)], now)
    ensures r.Some? ==> r.value == s.cache[Sha256(token)].accessToken
  {
    var digest := Sha256(token);
    if digest in s.cache && s.cache[digest].accessToken != "" && !TokenExpiresSoon(s.cache[digest], now)
    then Some(s.cache[digest].accessToken)
    else None
  }

  predicate Succeeds(reply: Reply) {
    reply.Payload? && reply.accessToken != ""
  }

  /** The refresh token that is current after a success. */
  function NextToken(token: Token, reply: Reply): Token
    requires reply.Payload?
  {
    if reply.refreshToken != "" then reply.refreshToken else token
  }

  predicate Rotates(token: Token, reply: Reply) {
    Succeeds(reply) && Sha256(NextToken(token, reply)) != Sha256(token)
  }

  /** The rest of refreshAccessToken, after the portal's answer; it has no `await` from here on. */
  function FinishRefresh(
      s: Store, loaded: LoadedFile, token: Token, now: real, reply: Reply, updateOk: bool)
      : (Store, LoadedFile, Result<string, Error>)
  {
    if reply.HttpError? then
      (s, loaded, Err(if reply.status == 400 || reply.status == 401 then ReauthRequired else RefreshFailed))
    else if reply.accessToken == "" then (s, loaded, Err(RefreshFailed))
    else
      var next := NextToken(token, reply);
      var expiresIn := if reply.expiresIn.Some? then reply.expiresIn.value else 900.0;
      var entry := CacheEntry(reply.accessToken, now + expiresIn * 1000.0);
      var cached := s.(cache := (s.cache - {Sha256(token)})[Sha256(next) := entry]);
      if Sha256(next) == Sha256(token) then
        (cached.(env := next), loaded, Ok(reply.accessToken))
      else if loaded.state.providerName != "" && !updateOk then
        (cached, loaded, Err(ProviderUpdateFailed))
      else
        var nextState := loaded.state.(refreshHash := Sha256(next));
        var providers := if loaded.state.providerName == "" then s.providers
                         else s.providers[loaded.state.providerName := next];
        (cached.(providers := providers, files := s.files[loaded.file := nextState], env := next),
         loaded.(state := nextState), Ok(reply.accessToken))
  }

  /** Main result: what a refresh answers, told from the portal's answer and the provider update.  The
      caller gets the access token, and never a refresh token. */
  lemma {:induction false} RefreshAnswer(
      s: Store, loaded: LoadedFile, token: Token, now: real, reply: Reply, updateOk: bool)
    ensures
      var r := FinishRefresh(s, loaded, token, now, reply, updateOk).2;
      match reply
      case HttpError(status) => r == Err(if status in {400, 401} then ReauthRequired else RefreshFailed)
      case Payload(accessToken, _, refreshToken) =>
        if accessToken == "" then r == Err(RefreshFailed)
        else if refreshToken in {"", token} || loaded.state.providerName == "" || updateOk then r == Ok(accessToken)
        else r == Err(ProviderUpdateFailed)
  {
  }

  /** ... and what it leaves, told in the same way: nothing on an HTTP error or without an access token; a
      new refresh token in the environment, the file and its provider, all three or none; and the access
      token in the cache in either case, under the new token only. */
  lemma {:induction false} RefreshEffect(
      s: Store, loaded: LoadedFile, token: Token, now: real, reply: Reply, updateOk: bool)
    ensures
      var (s', loaded', _) := FinishRefresh(s, loaded, token, now, reply, updateOk);
      if reply.HttpError? || reply.accessToken == "" then s' == s && loaded' == loaded
      else
        var next := if reply.refreshToken == "" then token else reply.refreshToken;
        var provider := loaded.state.providerName;
        && s'.cache.Keys == s.cache.Keys - {Sha256(token)} + {Sha256(next)}
        && s'.cache[Sha256(next)].accessToken == reply.accessToken
        && (forall d | d in s'.cache && d != Sha256(next) :: s'.cache[d] == s.cache[d])
        && (if next == token then
              s'.env == token && s'.files == s.files && s'.providers == s.providers && loaded' == loaded
            else if provider == "" || updateOk then
              && s'.env == next && loaded' == loaded.(state := loaded.state.(refreshHash := Sha256(next)))
              && s'.files == s.files[loaded.file := loaded'.state]
              && s'.providers == if provider == "" then s.providers else s.providers[provider := next]
            else s' == s.(cache := s'.cache) && loaded' == loaded)
  {
  }

  /** The end of ensureInferenceAgentKey, after the portal has minted a key (or not). */
  function FinishAgentKey(s: Store, loaded: LoadedFile, now: real, minted: bool, updateOk: bool): (Store, LoadedFile) {
    if !minted || !updateOk then (s, loaded)
    else
      var nextState := loaded.state.(keyExpiresAt := Some(now + KEY_TTL_MS));
      (s.(files := s.files[loaded.file := nextState]), loaded.(state := nextState))
  }

  /** A key is minted for half an hour and good until five minutes before that; a failure to mint it or to
      store it leaves everything as it was. */
  lemma {:induction false} KeyWindow(s: Store, loaded: LoadedFile, now: real, minted: bool, updateOk: bool, later: real)
    ensures
      var (s', loaded') := FinishAgentKey(s, loaded, now, minted, updateOk);
      if minted && updateOk then
        && (KeyExpiresSoon(loaded'.state, later) <==> later > now + 1_500_000.0)
        && loaded' == loaded.(state := loaded.state.(keyExpiresAt := loaded'.state.keyExpiresAt))
        && s' == s.(files := s.files[loaded.file := loaded'.state])
      else s' == s && loaded' == loaded
  {
  }

  /** resolveRuntimeRefreshToken */
  function RuntimeToken(s: Store, state: FileState): (r: Option<Token>)
    ensures forall t :: r == Some(t) <==> t != "" && t == s.env && state.refreshHash == Sha256(t)
  {
    if s.env == "" || state.refreshHash != Sha256(s.env) then None else Some(s.env)
  }

  /** loadStateFile passes over a file without a provider name. */
  predicate Loadable(state: FileState) {
    state.providerName != ""
  }

  predicate HasBrokerToken(state: FileState, token: Token) {
    Loadable(state) && state.brokerHash == Some(Sha256(token))
  }

  predicate HasRefreshToken(state: FileState, token: Token) {
    Loadable(state) && state.refreshHash == Sha256(token)
  }

  /** `file` is one that handleProxy may take for the credential `presented`: by broker token, or,
      when no file has that broker token, by refresh token. */
  predicate Identifies(files: map<string, FileState>, presented: Token, file: string) {
    && file in files
    && (|| HasBrokerToken(files[file], presented)
        || (HasRefreshToken(files[file], presented) && forall f | f in files :: !HasBrokerToken(files[f], presented)))
  }

  /** A broker token comes before a refresh token. */
  lemma {:induction false} IdentifiesExact(files: map<string, FileState>, presented: Token, file: string)
    ensures Identifies(files, presented, file) <==>
      && file in files && files[file].providerName != ""
      && if exists f | f in files :: files[f].providerName != "" && files[f].brokerHash == Some(Sha256(presented))
         then files[file].brokerHash == Some(Sha256(presented))
         else files[file].refreshHash == Sha256(presented)
  {
  }

  /** The object that a request and its background key refresh share. */
  class LoadedRef {
    const file: string
    var state: FileState

    constructor (file: string, state: FileState)
      ensures this.file == file && this.state == state
    {
      this.file, this.state := file, state;
    }

    ghost function Value(): LoadedFile
      reads this
    {
      LoadedFile(file, state)
    }
  }

  class BrokerProcess {
    var accessTokenCache: map<Digest, CacheEntry>
    var files: map<string, FileState>
    var env: Token
    var providers: map<string, Token>

    ghost function State(): Store
      reads this
    {
      Store(accessTokenCache, files, env, providers)
    }

    /** findStateByBrokerToken over a directory listing. */
    method FindStateByBrokerToken(listing: seq<string>, brokerToken: Token) returns (loaded: LoadedRef?)
      requires forall f :: f in listing <==> f in files
      ensures loaded == null <==> forall f | f in files :: !HasBrokerToken(files[f], brokerToken)
      ensures loaded != null ==>
        && fresh(loaded) && loaded.file in files && loaded.state == files[loaded.file]
        && HasBrokerToken(files[loaded.file], brokerToken)
    {
      var digest := Sha256(brokerToken);
      for i := 0 to |listing|
        invariant forall k | 0 <= k < i :: !HasBrokerToken(files[listing[k]], brokerToken)
      {
        var file := listing[i];
        assert file in listing;
        if !Loadable(files[file]) {
          continue;
        }
        if files[file].brokerHash.Some? && files[file].brokerHash.value == digest {
          loaded := new LoadedRef(file, files[file]);
          return;
        }
      }
      loaded := null;
      forall f | f in files ensures !HasBrokerToken(files[f], brokerToken) {
        var k :| 0 <= k < |listing| && listing[k] == f;
      }
    }

    /** findStateByRefreshToken over a directory listing. */
    method FindStateByRefreshToken(listing: seq<string>, refreshToken: Token) returns (loaded: LoadedRef?)
      requires forall f :: f in listing <==> f in files
      ensures loaded == null <==> forall f | f in files :: !HasRefreshToken(files[f], refreshToken)
      ensures loaded != null ==>
        && fresh(loaded) && loaded.file in files && loaded.state == files[loaded.file]
        && HasRefreshToken(files[loaded.file], refreshToken)
    {
      var digest := Sha256(refreshToken);
      for i := 0 to |listing|
        invariant forall k | 0 <= k < i :: !HasRefreshToken(files[listing[k]], refreshToken)
      {
        var file := listing[i];
        assert file in listing;
        if !Loadable(files[file]) {
          continue;
        }
        if files[file].refreshHash == digest {
          loaded := new LoadedRef(file, files[file]);
          return;
        }
      }
      loaded := null;
      forall f | f in files ensures !HasRefreshToken(files[f], refreshToken) {
        var k :| 0 <= k < |listing| && listing[k] == f;
      }
    }

    /** The two lookups of handleProxy. */
    method FindState(listing: seq<string>, presented: Token) returns (loaded: LoadedRef?)
      requires forall f :: f in listing <==> f in files
      ensures loaded == null <==> forall f :: !Identifies(files, presented, f)
      ensures loaded != null ==>
        fresh(loaded) && Identifies(files, presented, loaded.file) && loaded.state == files[loaded.file]
    {
      loaded := FindStateByBrokerToken(listing, presented);
      if loaded == null {
        loaded := FindStateByRefreshToken(listing, presented);
      }
      assert loaded != null ==> Identifies(files, presented, loaded.file);
    }

    method BeginRefresh(token: Token, now: real) returns (cached: Option<string>)
      ensures cached == CachedAccessToken(State(), token, now)
    {
      var digest := Sha256(token);
      if digest in accessTokenCache && accessTokenCache[digest].accessToken != ""
         && !TokenExpiresSoon(accessTokenCache[digest], now) {
        return Some(accessTokenCache[digest].accessToken);
      }
      return None;
    }

    method CommitRefresh(token: Token, loaded: LoadedRef, now: real, reply: Reply, updateOk: bool)
        returns (r: Result<string, Error>)
      modifies this, loaded
      ensures (State(), loaded.Value(), r)
        == FinishRefresh(old(State()), old(loaded.Value()), token, now, reply, updateOk)
    {
      if reply.HttpError? {
        return Err(if reply.status == 400 || reply.status == 401 then ReauthRequired else RefreshFailed);
      }
      if reply.accessToken == "" {
        return Err(RefreshFailed);
      }
      var expiresIn := if reply.expiresIn.Some? then reply.expiresIn.value else 900.0;
      var nextRefreshToken := if reply.refreshToken != "" then reply.refreshToken else token;
      var digest, nextDigest := Sha256(token), Sha256(nextRefreshToken);
      accessTokenCache := accessTokenCache - {digest};
      accessTokenCache := accessTokenCache[nextDigest := CacheEntry(reply.accessToken, now + expiresIn * 1000.0)];
      if nextDigest != digest {
        if loaded.state.providerName != "" {
          if !updateOk {
            return Err(ProviderUpdateFailed);
          }
          providers := providers[loaded.state.providerName := nextRefreshToken];
        }
        var nextState := loaded.state.(refreshHash := nextDigest);
        files := files[loaded.file := nextState];
        loaded.state := nextState;
      }
      env := nextRefreshToken;
      return Ok(reply.accessToken);
    }

    method CommitAgentKey(loaded: LoadedRef, now: real, minted: bool, updateOk: bool) returns (r: Result<bool, Error>)
      modifies this, loaded
      ensures (State(), loaded.Value()) == FinishAgentKey(old(State()), old(loaded.Value()), now, minted, updateOk)
      ensures r == if !minted then Err(AgentKeyFailed) else if !updateOk then Err(ProviderUpdateFailed) else Ok(true)
    {
      if !minted {
        return Err(AgentKeyFailed);
      }
      if !updateOk {
        return Err(ProviderUpdateFailed);
      }
      var nextState := loaded.state.(keyExpiresAt := Some(now + KEY_TTL_MS));
      files := files[loaded.file := nextState];
      loaded.state := nextState;
      return Ok(true);
    }
  }
}
