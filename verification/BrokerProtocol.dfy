/** The broker as a protocol: requests, timer ticks and registrations whose pieces interleave at the
    `await`s of agents/hermes/host/tool-gateway-broker.ts, with registration as in
    src/lib/hermes-tool-gateway-broker.ts. */
module BrokerProtocol {
  import opened Wrappers
  import opened Broker

  /** Where a request is waiting: for its own refresh, between that and the background key refresh,
      for the key refresh's token, or for the minted key. */
  datatype Phase = Refreshing | KeyCheck | KeyRefreshing | Minting

  datatype Thread = Thread(loaded: LoadedFile, token: Token, phase: Phase)

  /** `spent` are the refresh tokens that the portal has replaced; `last` is the file whose refresh
      completed last. */
  datatype System = System(store: Store, threads: map<nat, Thread>, spent: set<Token>, last: Option<string>)

  datatype Event =
    | Request(id: nat, presented: Token, file: string, now: real)
    | Tick(id: nat, file: string, force: bool, now: real)
    | PortalReply(id: nat, now: real, reply: Reply, updateOk: bool)
    | CheckKey(id: nat, now: real)
    | MintReply(id: nat, now: real, minted: bool, updateOk: bool)
    | Register(sandbox: string, refreshToken: Token, generated: Token, upsertOk: bool)

  function ProviderName(sandbox: string): string {
    sandbox + "-hermes-tool-gateway"
  }

  /** handleProxy up to its first `await`. */
  function StartRequest(s: System, id: nat, presented: Token, file: string, now: real): System {
    if id in s.threads || !Identifies(s.store.files, presented, file) then s
    else
      var state := s.store.files[file];
      var token := if state.brokerHash.Some? then RuntimeToken(s.store, state) else Some(presented);
      if token.None? then s
      else
        var phase := if CachedAccessToken(s.store, token.value, now).Some? then KeyCheck else Refreshing;
        s.(threads := s.threads[id := Thread(LoadedFile(file, state), token.value, phase)])
  }

  /** ensureInferenceAgentKey up to its first `await`; the thread ends when the key is still good. */
  function StartKeyRefresh(s: System, id: nat, t: Thread, force: bool, now: real): System {
    if !force && !KeyExpiresSoon(t.loaded.state, now) then s.(threads := s.threads - {id})
    else
      var phase := if CachedAccessToken(s.store, t.token, now).Some? then Minting else KeyRefreshing;
      s.(threads := s.threads[id := t.(phase := phase)])
  }

  /** One round of the loop in refreshManagedInferenceForRuntimeCredentials. */
  function StartTick(s: System, id: nat, file: string, force: bool, now: real): System {
    if id in s.threads || file !in s.store.files || !Loadable(s.store.files[file]) then s
    else
      var state := s.store.files[file];
      var token := RuntimeToken(s.store, state);
      if token.None? then s
      else StartKeyRefresh(s, id, Thread(LoadedFile(file, state), token.value, KeyCheck), force, now)
  }

  function FinishPortal(s: System, id: nat, t: Thread, now: real, reply: Reply, updateOk: bool): System {
    var (store, loaded, result) := FinishRefresh(s.store, t.loaded, t.token, now, reply, updateOk);
    var spent := if Rotates(t.token, reply) then s.spent + {t.token} else s.spent;
    if result.Err? then System(store, s.threads - {id}, spent, s.last)
    else
      var phase := if t.phase.Refreshing? then KeyCheck else Minting;
      System(store, s.threads[id := Thread(loaded, t.token, phase)], spent, Some(loaded.file))
  }

  /** registerHermesToolGatewayRefreshProvider: the state file first, then the provider. */
  function FinishRegister(s: System, sandbox: string, refreshToken: Token, generated: Token, upsertOk: bool): System {
    var files := s.store.files;
    var brokerToken := if sandbox in files && files[sandbox].brokerToken != "" then files[sandbox].brokerToken
                       else generated;
    var state := FileState(ProviderName(sandbox), brokerToken, Some(Sha256(brokerToken)), Sha256(refreshToken), None);
    var providers := if upsertOk then s.store.providers[ProviderName(sandbox) := refreshToken] else s.store.providers;
    s.(store := s.store.(files := files[sandbox := state], providers := providers))
  }

  function Step(s: System, ev: Event): System {
    match ev
    case Request(id, presented, file, now) => StartRequest(s, id, presented, file, now)
    case Tick(id, file, force, now) => StartTick(s, id, file, force, now)
    case PortalReply(id, now, reply, updateOk) =>
      if id in s.threads && (s.threads[id].phase.Refreshing? || s.threads[id].phase.KeyRefreshing?)
      then FinishPortal(s, id, s.threads[id], now, reply, updateOk) else s
    case CheckKey(id, now) =>
      if id in s.threads && s.threads[id].phase.KeyCheck?
      then StartKeyRefresh(s, id, s.threads[id], false, now) else s
    case MintReply(id, now, minted, updateOk) =>
      if id in s.threads && s.threads[id].phase.Minting? then
        var (store, _) := FinishAgentKey(s.store, s.threads[id].loaded, now, minted, updateOk);
        s.(store := store, threads := s.threads - {id})
      else s
    case Register(sandbox, refreshToken, generated, upsertOk) =>
      if refreshToken == "" then s else FinishRegister(s, sandbox, refreshToken, generated, upsertOk)
  }

  function Run(s: System, evs: seq<Event>): System
    decreases |evs|
  {
    if evs == [] then s else Step(Run(s, evs[..|evs| - 1]), evs[|evs| - 1])
  }

  // ----- What starts a thread, told from the files, the cache and the clock -----

  /** There is an access token for the refresh token with at least two minutes left. */
  ghost predicate HasAccess(s: Store, token: Token, now: real) {
    var d := Sha256(token);
    && d in s.cache && s.cache[d].accessToken != ""
    && s.cache[d].expiresAt != 0.0 && s.cache[d].expiresAt >= now + 120_000.0
  }

  /** The key has at least five minutes left. */
  ghost predicate GoodKey(state: FileState, now: real) {
    state.keyExpiresAt.Some? && state.keyExpiresAt.value >= now + 300_000.0
  }

  /** The thread is there with this copy and token, in this phase, and nothing else has changed. */
  ghost predicate Starts(s: System, r: System, id: nat, loaded: LoadedFile, token: Token, phase: Phase) {
    r == s.(threads := s.threads[id := Thread(loaded, token, phase)])
  }

  /** A request starts a refresh, or goes on to the key with a cached access token; its token is the one of
      the environment if the file has a broker token, and the presented one otherwise. */
  lemma {:induction false} RequestStarts(s: System, id: nat, presented: Token, file: string, now: real)
    requires id !in s.threads && Identifies(s.store.files, presented, file)
    ensures
      var r, state := Step(s, Request(id, presented, file, now)), s.store.files[file];
      var token := if state.brokerHash.None? then presented else s.store.env;
      if state.brokerHash.Some? && (s.store.env == "" || state.refreshHash != Sha256(s.store.env)) then r == s
      else Starts(s, r, id, LoadedFile(file, state), token,
                  if HasAccess(s.store, token, now) then KeyCheck else Refreshing)
  {
  }

  /** A tick starts nothing unless the environment holds the file's token; then it mints a key, with a
      refresh before that if no access token is cached, if it is forced to or the key is no longer good. */
  lemma {:induction false} TickStarts(s: System, id: nat, file: string, force: bool, now: real)
    requires id !in s.threads && file in s.store.files && s.store.files[file].providerName != ""
    ensures
      var r, state, token := Step(s, Tick(id, file, force, now)), s.store.files[file], s.store.env;
      if token == "" || state.refreshHash != Sha256(token) || (!force && GoodKey(state, now)) then r == s
      else Starts(s, r, id, LoadedFile(file, state), token,
                  if HasAccess(s.store, token, now) then Minting else KeyRefreshing)
  {
    assert s.threads - {id} == s.threads;
  }

  /** After its own refresh a request ends, unless the key is no longer good; it is never forced. */
  lemma {:induction false} KeyCheckStarts(s: System, id: nat, now: real)
    requires id in s.threads && s.threads[id].phase == KeyCheck
    ensures
      var r, t := Step(s, CheckKey(id, now)), s.threads[id];
      if GoodKey(t.loaded.state, now) then r == s.(threads := s.threads - {id})
      else Starts(s, r, id, t.loaded, t.token, if HasAccess(s.store, t.token, now) then Minting else KeyRefreshing)
  {
  }

  // ----- Broker tokens, in every interleaving -----

  /** Every state file, and every loaded copy however stale, carries the broker token that was issued
      to its sandbox, and no two sandboxes have the same one. */
  ghost predicate Issued(s: System, tokens: map<string, Token>) {
    && s.store.files.Keys == tokens.Keys
    && (forall f | f in tokens :: CarriesToken(s.store.files[f], tokens[f]))
    && (forall i | i in s.threads ::
          var l := s.threads[i].loaded; l.file in tokens && CarriesToken(l.state, tokens[l.file]))
    && (forall f, g | f in tokens && g in tokens && tokens[f] == tokens[g] :: f == g)
  }

  ghost predicate CarriesToken(state: FileState, token: Token) {
    token != "" && state.brokerToken == token && state.brokerHash == Some(Sha256(token)) && Loadable(state)
  }

  /** The tokens after an event: a first registration issues the generated one. */
  ghost function Issue(tokens: map<string, Token>, ev: Event): map<string, Token> {
    if ev.Register? && ev.refreshToken != "" && ev.sandbox !in tokens then tokens[ev.sandbox := ev.generated]
    else tokens
  }

  ghost predicate FreshToken(tokens: map<string, Token>, ev: Event) {
    ev.Register? ==> ev.generated != "" && ev.generated !in tokens.Values
  }

  lemma {:induction false} StepKeepsTokens(s: System, ev: Event, tokens: map<string, Token>)
    requires Issued(s, tokens) && FreshToken(tokens, ev)
    ensures Issued(Step(s, ev), Issue(tokens, ev))
  {
    match ev
    case Request(id, presented, file, now) => RequestKeepsTokens(s, id, presented, file, now, tokens);
    case Tick(id, file, force, now) => TickKeepsTokens(s, id, file, force, now, tokens);
    case PortalReply(id, now, reply, updateOk) =>
      if id in s.threads { PortalKeepsTokens(s, id, now, reply, updateOk, tokens); }
    case CheckKey(id, now) =>
      if id in s.threads { KeyRefreshKeepsTokens(s, id, s.threads[id], false, now, tokens); }
    case MintReply(id, now, minted, updateOk) => MintKeepsTokens(s, id, now, minted, updateOk, tokens);
    case Register(sandbox, refreshToken, generated, upsertOk) =>
      if refreshToken != "" { RegisterKeepsTokens(s, sandbox, refreshToken, generated, upsertOk, tokens); }
  }

  lemma {:induction false} RequestKeepsTokens(
      s: System, id: nat, presented: Token, file: string, now: real, tokens: map<string, Token>)
    requires Issued(s, tokens)
    ensures Issued(StartRequest(s, id, presented, file, now), tokens)
  {
  }

  lemma {:induction false} KeyRefreshKeepsTokens(
      s: System, id: nat, t: Thread, force: bool, now: real, tokens: map<string, Token>)
    requires Issued(s, tokens) && t.loaded.file in tokens && CarriesToken(t.loaded.state, tokens[t.loaded.file])
    ensures Issued(StartKeyRefresh(s, id, t, force, now), tokens)
  {
  }

  lemma {:induction false} TickKeepsTokens(
      s: System, id: nat, file: string, force: bool, now: real, tokens: map<string, Token>)
    requires Issued(s, tokens)
    ensures Issued(StartTick(s, id, file, force, now), tokens)
  {
    if file in s.store.files {
      var state := s.store.files[file];
      KeyRefreshKeepsTokens(s, id, Thread(LoadedFile(file, state), s.store.env, KeyCheck), force, now, tokens);
    }
  }

  /** The end of a refresh writes, at most, the copy with another refresh hash. */
  lemma {:induction false} RefreshWrites(
      s: Store, loaded: LoadedFile, token: Token, now: real, reply: Reply, updateOk: bool)
    ensures
      var (s', loaded', _) := FinishRefresh(s, loaded, token, now, reply, updateOk);
      && (s'.files == s.files || s'.files == s.files[loaded.file := loaded'.state])
      && loaded'.file == loaded.file && loaded'.state == loaded.state.(refreshHash := loaded'.state.refreshHash)
  {
  }

  lemma {:induction false} PortalKeepsTokens(
      s: System, id: nat, now: real, reply: Reply, updateOk: bool, tokens: map<string, Token>)
    requires Issued(s, tokens) && id in s.threads
    ensures Issued(FinishPortal(s, id, s.threads[id], now, reply, updateOk), tokens)
  {
    var t := s.threads[id];
    RefreshWrites(s.store, t.loaded, t.token, now, reply, updateOk);
    var (store, loaded, _) := FinishRefresh(s.store, t.loaded, t.token, now, reply, updateOk);
    var r := FinishPortal(s, id, t, now, reply, updateOk);
    WriteKeepsTokens(s, id, store, loaded, if id in r.threads then r.threads[id] else t, r.spent, r.last, tokens);
  }

  /** Writing a copy that carries its token, and replacing or ending a thread on it. */
  lemma {:induction false} WriteKeepsTokens(
      s: System, id: nat, store: Store, loaded: LoadedFile, t: Thread, spent: set<Token>, last: Option<string>,
      tokens: map<string, Token>)
    requires Issued(s, tokens) && loaded.file in tokens && CarriesToken(loaded.state, tokens[loaded.file])
    requires store.files == s.store.files || store.files == s.store.files[loaded.file := loaded.state]
    ensures Issued(System(store, s.threads - {id}, spent, last), tokens)
    ensures t.loaded == loaded ==> Issued(System(store, s.threads[id := t], spent, last), tokens)
  {
    hide CarriesToken;
    assert store.files.Keys == tokens.Keys;
    assert forall f | f in tokens :: CarriesToken(store.files[f], tokens[f]);
  }

  lemma {:induction false} MintKeepsTokens(
      s: System, id: nat, now: real, minted: bool, updateOk: bool, tokens: map<string, Token>)
    requires Issued(s, tokens)
    ensures Issued(Step(s, MintReply(id, now, minted, updateOk)), tokens)
  {
  }

  lemma {:induction false} RegisterKeepsTokens(
      s: System, sandbox: string, refreshToken: Token, generated: Token, upsertOk: bool, tokens: map<string, Token>)
    requires Issued(s, tokens) && generated != "" && generated !in tokens.Values
    ensures Issued(FinishRegister(s, sandbox, refreshToken, generated, upsertOk),
                   if sandbox in tokens then tokens else tokens[sandbox := generated])
  {
  }

  ghost function IssueAll(tokens: map<string, Token>, evs: seq<Event>): map<string, Token>
    decreases |evs|
  {
    if evs == [] then tokens else Issue(IssueAll(tokens, evs[..|evs| - 1]), evs[|evs| - 1])
  }

  /** Every generated token is new when it is generated. */
  ghost predicate FreshTokens(tokens: map<string, Token>, evs: seq<Event>)
    decreases |evs|
  {
    evs == [] || (var front := evs[..|evs| - 1];
      FreshTokens(tokens, front) && FreshToken(IssueAll(tokens, front), evs[|evs| - 1]))
  }

  /** Main result: over every run, with every interleaving of registrations, refreshes and key writes,
      each sandbox keeps its broker token, and a request with that token is served from the sandbox's
      own file and no other. */
  lemma {:induction false} BrokerTokensStable(s: System, evs: seq<Event>, tokens: map<string, Token>)
    requires Issued(s, tokens) && FreshTokens(tokens, evs)
    ensures Issued(Run(s, evs), IssueAll(tokens, evs))
    ensures forall f | f in tokens ::
      && f in Run(s, evs).store.files && Run(s, evs).store.files[f].brokerToken == tokens[f]
      && forall g :: Identifies(Run(s, evs).store.files, tokens[f], g) <==> g == f
    decreases |evs|
  {
    hide Identifies, Issued;
    if evs != [] {
      var front := evs[..|evs| - 1];
      BrokerTokensStable(s, front, tokens);
      StepKeepsTokens(Run(s, front), evs[|evs| - 1], IssueAll(tokens, front));
    }
    IssueAllExtends(tokens, evs);
    IssuedIdentifies(Run(s, evs), IssueAll(tokens, evs));
  }

  lemma {:induction false} IssuedIdentifies(s: System, tokens: map<string, Token>)
    requires Issued(s, tokens)
    ensures forall f | f in tokens ::
      && f in s.store.files && s.store.files[f].brokerToken == tokens[f]
      && forall g :: Identifies(s.store.files, tokens[f], g) <==> g == f
  {
    forall f, g | f in tokens ensures Identifies(s.store.files, tokens[f], g) <==> g == f {
      assert CarriesToken(s.store.files[f], tokens[f]);
    }
  }

  lemma {:induction false} IssueAllExtends(tokens: map<string, Token>, evs: seq<Event>)
    ensures forall f | f in tokens :: f in IssueAll(tokens, evs) && IssueAll(tokens, evs)[f] == tokens[f]
    decreases |evs|
  {
    if evs != [] {
      IssueAllExtends(tokens, evs[..|evs| - 1]);
    }
  }

  // ----- Agreement of provider, state file and environment -----

  /** The provider holds the token whose hash the file records. */
  ghost predicate FileAgrees(s: Store, file: string) {
    && file in s.files
    && s.files[file].providerName in s.providers
    && s.files[file].refreshHash == Sha256(s.providers[s.files[file].providerName])
  }

  /** ... and so does the environment. */
  ghost predicate Agrees(s: Store, file: string) {
    FileAgrees(s, file) && s.files[file].refreshHash == Sha256(s.env)
  }

  /** When the end of a refresh keeps the three in agreement: always, except for a success without a
      new token that puts back a token other than the current one. */
  predicate RefreshHarmless(s: Store, token: Token, reply: Reply) {
    Succeeds(reply) && !Rotates(token, reply) ==> token == s.env
  }

  lemma {:induction false} RefreshAgreementExact(
      s: Store, loaded: LoadedFile, token: Token, now: real, reply: Reply, updateOk: bool)
    requires Agrees(s, loaded.file)
    requires loaded.state.providerName == s.files[loaded.file].providerName != ""
    ensures Agrees(FinishRefresh(s, loaded, token, now, reply, updateOk).0, loaded.file)
       <==> RefreshHarmless(s, token, reply)
    ensures FileAgrees(FinishRefresh(s, loaded, token, now, reply, updateOk).0, loaded.file)
  {
  }

  /** A key write keeps the agreement if and only if the copy it spreads records the current hash. */
  lemma {:induction false} KeyWriteAgreementExact(s: Store, loaded: LoadedFile, now: real)
    requires Agrees(s, loaded.file)
    requires loaded.state.providerName == s.files[loaded.file].providerName
    ensures Agrees(FinishAgentKey(s, loaded, now, true, true).0, loaded.file)
       <==> loaded.state.refreshHash == s.files[loaded.file].refreshHash
  {
  }

  /** A registration leaves file and provider in agreement if and only if the provider was updated,
      or already held the token. */
  lemma {:induction false} RegisterAgreementExact(
      s: System, sandbox: string, refreshToken: Token, generated: Token, upsertOk: bool)
    ensures FileAgrees(FinishRegister(s, sandbox, refreshToken, generated, upsertOk).store, sandbox) <==>
      var provider := sandbox + "-hermes-tool-gateway";
      upsertOk || (provider in s.store.providers && s.store.providers[provider] == refreshToken)
  {
  }

  /** One state file, and every thread works on it under the same provider name. */
  ghost predicate OnFile(s: System, file: string) {
    && s.store.files.Keys == {file}
    && s.store.files[file].providerName != ""
    && forall i | i in s.threads ::
         s.threads[i].loaded.file == file
         && s.threads[i].loaded.state.providerName == s.store.files[file].providerName
  }

  /** The events that cannot break the agreement, given where the system is. */
  ghost predicate Harmless(s: System, ev: Event) {
    match ev
    case PortalReply(id, _, reply, _) =>
      id in s.threads && (s.threads[id].phase.Refreshing? || s.threads[id].phase.KeyRefreshing?) ==>
        RefreshHarmless(s.store, s.threads[id].token, reply)
    case MintReply(id, _, minted, updateOk) =>
      id in s.threads && s.threads[id].phase.Minting? && minted && updateOk ==>
        var l := s.threads[id].loaded;
        l.file in s.store.files && l.state.refreshHash == s.store.files[l.file].refreshHash
    case _ => true
  }

  lemma {:induction false} StepAgreementExact(s: System, ev: Event, file: string)
    requires OnFile(s, file) && Agrees(s.store, file) && !ev.Register?
    ensures Agrees(Step(s, ev).store, file) <==> Harmless(s, ev)
  {
    match ev
    case PortalReply(id, now, reply, updateOk) =>
      if id in s.threads && (s.threads[id].phase.Refreshing? || s.threads[id].phase.KeyRefreshing?) {
        var t := s.threads[id];
        RefreshAgreementExact(s.store, t.loaded, t.token, now, reply, updateOk);
        assert Step(s, ev).store == FinishRefresh(s.store, t.loaded, t.token, now, reply, updateOk).0;
      }
    case MintReply(id, now, minted, updateOk) =>
      if id in s.threads && s.threads[id].phase.Minting? && minted && updateOk {
        KeyWriteAgreementExact(s.store, s.threads[id].loaded, now);
      }
    case _ =>
  }

  /** After every step of the run, the three agree. */
  ghost predicate AlwaysAgrees(s: System, evs: seq<Event>, file: string)
    decreases |evs|
  {
    Agrees(Run(s, evs).store, file) && (evs == [] || AlwaysAgrees(s, evs[..|evs| - 1], file))
  }

  /** Every step of the run is harmless where it is taken. */
  ghost predicate AlwaysHarmless(s: System, evs: seq<Event>)
    decreases |evs|
  {
    evs == [] || (AlwaysHarmless(s, evs[..|evs| - 1]) && Harmless(Run(s, evs[..|evs| - 1]), evs[|evs| - 1]))
  }

  /** Main result, and the exact condition: in every interleaving of requests, ticks and their key
      writes on one file, provider, file and environment agree after every step if and only if every
      step was harmless where it was taken. */
  lemma {:induction false} AgreementExact(s: System, evs: seq<Event>, file: string)
    requires OnFile(s, file) && Agrees(s.store, file)
    requires forall ev | ev in evs :: !ev.Register?
    ensures AlwaysAgrees(s, evs, file) <==> AlwaysHarmless(s, evs)
    ensures OnFile(Run(s, evs), file)
    decreases |evs|
  {
    if evs != [] {
      var front, last := evs[..|evs| - 1], evs[|evs| - 1];
      AgreementExact(s, front, file);
      RunAgreementStep(Run(s, front), last, file);
      AlwaysAgreesNow(s, front, file);
    }
  }

  lemma {:induction false} AlwaysAgreesNow(s: System, evs: seq<Event>, file: string)
    ensures AlwaysAgrees(s, evs, file) ==> Agrees(Run(s, evs).store, file)
  {
  }

  lemma {:induction false} RunAgreementStep(s: System, ev: Event, file: string)
    requires OnFile(s, file) && !ev.Register?
    ensures OnFile(Step(s, ev), file)
    ensures Agrees(s.store, file) ==> (Agrees(Step(s, ev).store, file) <==> Harmless(s, ev))
  {
    OnFileStays(s, ev, file);
    if Agrees(s.store, file) {
      StepAgreementExact(s, ev, file);
    }
  }

  lemma {:induction false} OnFileStays(s: System, ev: Event, file: string)
    requires OnFile(s, file) && !ev.Register?
    ensures OnFile(Step(s, ev), file)
  {
  }

  /** A success carries a refresh token other than the one it answers. */
  ghost predicate CarriesNewToken(s: System, ev: Event) {
    ev.PortalReply? && ev.id in s.threads && Succeeds(ev.reply) ==> Rotates(s.threads[ev.id].token, ev.reply)
  }

  ghost predicate AlwaysNewTokens(s: System, evs: seq<Event>)
    decreases |evs|
  {
    evs == [] || (AlwaysNewTokens(s, evs[..|evs| - 1]) && CarriesNewToken(Run(s, evs[..|evs| - 1]), evs[|evs| - 1]))
  }

  /** In particular: with a portal whose every success carries a new token, and without key writes,
      no interleaving of refreshes breaks the agreement, not even by a failed provider update. */
  lemma {:induction false} RotationsAgree(s: System, evs: seq<Event>, file: string)
    requires OnFile(s, file) && Agrees(s.store, file) && AlwaysNewTokens(s, evs)
    requires forall ev | ev in evs :: !ev.Register? && (ev.MintReply? ==> !ev.minted || !ev.updateOk)
    ensures AlwaysAgrees(s, evs, file)
  {
    NewTokensHarmless(s, evs);
    AgreementExact(s, evs, file);
  }

  lemma {:induction false} NewTokensHarmless(s: System, evs: seq<Event>)
    requires AlwaysNewTokens(s, evs)
    requires forall ev | ev in evs :: ev.MintReply? ==> !ev.minted || !ev.updateOk
    ensures AlwaysHarmless(s, evs)
    decreases |evs|
  {
    if evs != [] {
      NewTokensHarmless(s, evs[..|evs| - 1]);
    }
  }

  // ----- The same condition on the schedule -----

  /** The event ends a refresh under way, and the portal's new token is stored. */
  ghost predicate StoresRotation(s: System, ev: Event) {
    && ev.PortalReply? && ev.updateOk && ev.id in s.threads
    && (s.threads[ev.id].phase.Refreshing? || s.threads[ev.id].phase.KeyRefreshing?)
    && Rotates(s.threads[ev.id].token, ev.reply)
  }

  /** The threads since whose start a rotation has been stored. */
  ghost function Outdated(s: System, evs: seq<Event>): set<nat>
    decreases |evs|
  {
    if evs == [] then {} else NextOutdated(Run(s, evs[..|evs| - 1]), evs[|evs| - 1], Outdated(s, evs[..|evs| - 1]))
  }

  ghost function NextOutdated(s: System, ev: Event, outdated: set<nat>): set<nat> {
    if StoresRotation(s, ev) then s.threads.Keys else outdated * s.threads.Keys
  }

  /** The threads since whose start, or since whose own last stored rotation, another thread's rotation
      has been stored. */
  ghost function Overtaken(s: System, evs: seq<Event>): set<nat>
    decreases |evs|
  {
    if evs == [] then {} else NextOvertaken(Run(s, evs[..|evs| - 1]), evs[|evs| - 1], Overtaken(s, evs[..|evs| - 1]))
  }

  ghost function NextOvertaken(s: System, ev: Event, overtaken: set<nat>): set<nat> {
    if StoresRotation(s, ev) then s.threads.Keys - {ev.id} else overtaken * s.threads.Keys
  }

  /** The first token and those stored since. */
  ghost function Seen(s: System, evs: seq<Event>): set<Token>
    decreases |evs|
  {
    if evs == [] then {s.store.env} else NextSeen(Run(s, evs[..|evs| - 1]), evs[|evs| - 1], Seen(s, evs[..|evs| - 1]))
  }

  ghost function NextSeen(s: System, ev: Event, seen: set<Token>): set<Token> {
    if StoresRotation(s, ev) then seen + {NextToken(s.threads[ev.id].token, ev.reply)} else seen
  }

  ghost predicate StoresUnseen(s: System, ev: Event, seen: set<Token>) {
    StoresRotation(s, ev) ==> NextToken(s.threads[ev.id].token, ev.reply) !in seen
  }

  /** No stored rotation brings a token back. */
  ghost predicate AlwaysUnseen(s: System, evs: seq<Event>)
    decreases |evs|
  {
    evs == [] || (var front := evs[..|evs| - 1];
      AlwaysUnseen(s, front) && StoresUnseen(Run(s, front), evs[|evs| - 1], Seen(s, front)))
  }

  /** The portal's success without a new token is for a thread that is not outdated, and a key is written
      by a thread that is not overtaken. */
  ghost predicate InTime(s: System, ev: Event, outdated: set<nat>, overtaken: set<nat>) {
    match ev
    case PortalReply(id, _, reply, _) =>
      id in s.threads && (s.threads[id].phase.Refreshing? || s.threads[id].phase.KeyRefreshing?) ==>
        (Succeeds(reply) && !Rotates(s.threads[id].token, reply) ==> id !in outdated)
    case MintReply(id, _, minted, updateOk) =>
      id in s.threads && s.threads[id].phase.Minting? && minted && updateOk ==> id !in overtaken
    case _ => true
  }

  ghost predicate AlwaysInTime(s: System, evs: seq<Event>)
    decreases |evs|
  {
    evs == [] || (var front := evs[..|evs| - 1];
      AlwaysInTime(s, front) && InTime(Run(s, front), evs[|evs| - 1], Outdated(s, front), Overtaken(s, front)))
  }

  /** The threads with the current token are those not outdated, and the copies with its hash are those
      of threads not overtaken. */
  ghost predicate Tracked(s: System, outdated: set<nat>, overtaken: set<nat>, seen: set<Token>) {
    && s.store.env in seen
    && forall i | i in s.threads ::
         && s.threads[i].token in seen && (s.threads[i].token == s.store.env <==> i !in outdated)
         && s.threads[i].loaded.state.refreshHash.preimage in seen
         && (s.threads[i].loaded.state.refreshHash == Sha256(s.store.env) <==> i !in overtaken)
  }

  lemma {:induction false} InTimeExact(
      s: System, ev: Event, file: string, outdated: set<nat>, overtaken: set<nat>, seen: set<Token>)
    requires OnFile(s, file) && Agrees(s.store, file) && Tracked(s, outdated, overtaken, seen)
    ensures InTime(s, ev, outdated, overtaken) <==> Harmless(s, ev)
  {
  }

  lemma {:induction false} StartTracked(
      s: System, ev: Event, file: string, outdated: set<nat>, overtaken: set<nat>, seen: set<Token>)
    requires OnFile(s, file) && Agrees(s.store, file) && Tracked(s, outdated, overtaken, seen)
    requires ev.Request? || ev.Tick? || ev.CheckKey?
    ensures Tracked(Step(s, ev), outdated * s.threads.Keys, overtaken * s.threads.Keys, seen)
  {
    hide CachedAccessToken, KeyExpiresSoon, Tracked;
    var r, id := Step(s, ev), ev.id;
    assert r.store == s.store && s.threads.Keys <= r.threads.Keys + {id};
    assert forall i | i in r.threads && i != id :: i in s.threads && r.threads[i] == s.threads[i];
    if id in r.threads && id !in s.threads {
      assert r.threads[id].token == s.store.env;
    }
    ThreadTracked(s, r, id, outdated, overtaken, seen);
  }

  /** A thread more with the current token and copy, one less, or one in another phase. */
  lemma {:induction false} ThreadTracked(
      s: System, r: System, id: nat, outdated: set<nat>, overtaken: set<nat>, seen: set<Token>)
    requires Tracked(s, outdated, overtaken, seen) && r.store.env == s.store.env
    requires forall i | i in r.threads && i != id :: i in s.threads && r.threads[i] == s.threads[i]
    requires id in r.threads && id in s.threads ==>
      r.threads[id].token == s.threads[id].token && r.threads[id].loaded == s.threads[id].loaded
    requires id in r.threads && id !in s.threads ==>
      r.threads[id].token == s.store.env && r.threads[id].loaded.state.refreshHash == Sha256(s.store.env)
    ensures Tracked(r, outdated * s.threads.Keys, overtaken * s.threads.Keys, seen)
  {
  }

  lemma {:induction false} MintTracked(
      s: System, ev: Event, file: string, outdated: set<nat>, overtaken: set<nat>, seen: set<Token>)
    requires OnFile(s, file) && Agrees(s.store, file) && Tracked(s, outdated, overtaken, seen) && ev.MintReply?
    ensures Tracked(Step(s, ev), outdated * s.threads.Keys, overtaken * s.threads.Keys, seen)
  {
    hide Tracked;
    ThreadTracked(s, Step(s, ev), ev.id, outdated, overtaken, seen);
  }

  lemma {:induction false} PortalTracked(
      s: System, ev: Event, file: string, outdated: set<nat>, overtaken: set<nat>, seen: set<Token>)
    requires OnFile(s, file) && Agrees(s.store, file) && Tracked(s, outdated, overtaken, seen)
    requires ev.PortalReply? && Harmless(s, ev) && StoresUnseen(s, ev, seen)
    ensures Tracked(Step(s, ev), NextOutdated(s, ev, outdated), NextOvertaken(s, ev, overtaken), NextSeen(s, ev, seen))
  {
    hide OnFile, Agrees, Harmless, Tracked;
    if StoresRotation(s, ev) {
      RotationTracked(s, ev, file, outdated, overtaken, seen);
    } else if ev.id in s.threads && (s.threads[ev.id].phase.Refreshing? || s.threads[ev.id].phase.KeyRefreshing?) {
      PortalKeepsToken(s, ev, file);
      ThreadTracked(s, Step(s, ev), ev.id, outdated, overtaken, seen);
    } else {
      ThreadTracked(s, s, 0, outdated, overtaken, seen);
    }
  }

  lemma {:induction false} PortalKeepsToken(s: System, ev: Event, file: string)
    requires OnFile(s, file) && ev.PortalReply? && Harmless(s, ev) && !StoresRotation(s, ev)
    requires ev.id in s.threads && (s.threads[ev.id].phase.Refreshing? || s.threads[ev.id].phase.KeyRefreshing?)
    ensures Step(s, ev).store.env == s.store.env
    ensures forall i | i in Step(s, ev).threads && i != ev.id ::
      i in s.threads && Step(s, ev).threads[i] == s.threads[i]
    ensures ev.id in Step(s, ev).threads ==>
      && Step(s, ev).threads[ev.id].token == s.threads[ev.id].token
      && Step(s, ev).threads[ev.id].loaded == s.threads[ev.id].loaded
  {
  }

  lemma {:induction false} RotationTracked(
      s: System, ev: Event, file: string, outdated: set<nat>, overtaken: set<nat>, seen: set<Token>)
    requires OnFile(s, file) && Tracked(s, outdated, overtaken, seen)
    requires StoresRotation(s, ev) && StoresUnseen(s, ev, seen)
    ensures Tracked(Step(s, ev), NextOutdated(s, ev, outdated), NextOvertaken(s, ev, overtaken), NextSeen(s, ev, seen))
  {
    hide Tracked;
    var r, next := Step(s, ev), NextToken(s.threads[ev.id].token, ev.reply);
    assert r.store.env == next && r.threads.Keys == s.threads.Keys;
    assert forall i | i in r.threads && i != ev.id :: r.threads[i] == s.threads[i];
    assert r.threads[ev.id].token == s.threads[ev.id].token;
    assert r.threads[ev.id].loaded.state.refreshHash == Sha256(next);
    AllOutdated(s, r, ev.id, next, outdated, overtaken, seen);
  }

  lemma {:induction false} AllOutdated(
      s: System, r: System, id: nat, next: Token, outdated: set<nat>, overtaken: set<nat>, seen: set<Token>)
    requires Tracked(s, outdated, overtaken, seen) && next !in seen
    requires r.store.env == next && r.threads.Keys == s.threads.Keys && id in s.threads
    requires forall i | i in r.threads && i != id :: r.threads[i] == s.threads[i]
    requires r.threads[id].token == s.threads[id].token && r.threads[id].loaded.state.refreshHash == Sha256(next)
    ensures Tracked(r, s.threads.Keys, s.threads.Keys - {id}, seen + {next})
  {
  }

  lemma {:induction false} StepTracked(
      s: System, ev: Event, file: string, outdated: set<nat>, overtaken: set<nat>, seen: set<Token>)
    requires OnFile(s, file) && Agrees(s.store, file) && Tracked(s, outdated, overtaken, seen)
    requires !ev.Register? && Harmless(s, ev) && StoresUnseen(s, ev, seen)
    ensures Tracked(Step(s, ev), NextOutdated(s, ev, outdated), NextOvertaken(s, ev, overtaken), NextSeen(s, ev, seen))
  {
    hide Step, Tracked, OnFile, Agrees, Harmless;
    match ev
    case PortalReply(_, _, _, _) => PortalTracked(s, ev, file, outdated, overtaken, seen);
    case MintReply(_, _, _, _) => MintTracked(s, ev, file, outdated, overtaken, seen);
    case _ => StartTracked(s, ev, file, outdated, overtaken, seen);
  }

  /** Main result, on the schedule: in every interleaving on one file that starts without threads, with a
      portal whose new tokens are new, provider, file and environment agree after every step if and only if
      no thread gets a success without a new token once any rotation was stored since its start, and none
      writes a key once another's rotation was stored since its start or its own last one. */
  lemma {:induction false} ScheduleExact(s: System, evs: seq<Event>, file: string)
    requires OnFile(s, file) && Agrees(s.store, file) && s.threads == map[]
    requires AlwaysUnseen(s, evs) && forall ev | ev in evs :: !ev.Register?
    ensures AlwaysAgrees(s, evs, file) <==> AlwaysInTime(s, evs)
    ensures AlwaysAgrees(s, evs, file) ==> Tracked(Run(s, evs), Outdated(s, evs), Overtaken(s, evs), Seen(s, evs))
    decreases |evs|
  {
    hide OnFile, Agrees, Tracked, Harmless, InTime, Step;
    AgreementExact(s, evs, file);
    if evs == [] {
      NothingTracked(s);
    } else {
      var front, last := evs[..|evs| - 1], evs[|evs| - 1];
      ScheduleExact(s, front, file);
      AgreementExact(s, front, file);
      if AlwaysAgrees(s, front, file) {
        AlwaysAgreesNow(s, front, file);
        InTimeExact(Run(s, front), last, file, Outdated(s, front), Overtaken(s, front), Seen(s, front));
        if Harmless(Run(s, front), last) {
          StepTracked(Run(s, front), last, file, Outdated(s, front), Overtaken(s, front), Seen(s, front));
        }
      }
    }
  }

  lemma {:induction false} NothingTracked(s: System)
    requires s.threads == map[]
    ensures Tracked(s, {}, {}, {s.store.env})
  {
  }

  // ----- Serialised runs -----

  /** Each file has a provider of its own and agrees with it; at most one thread is under way, its
      copy is current, and its token is current or known to be spent; the environment belongs to the
      file whose refresh completed last. */
  ghost predicate Serial(s: System) {
    && (forall f | f in s.store.files :: FileAgrees(s.store, f) && s.store.files[f].providerName != "")
    && (forall f, g | f in s.store.files && g in s.store.files
          && s.store.files[f].providerName == s.store.files[g].providerName :: f == g)
    && (forall i, j | i in s.threads && j in s.threads :: i == j)
    && (forall i | i in s.threads :: CurrentThread(s, s.threads[i]))
    && (s.last.Some? ==>
          s.last.value in s.store.files && s.store.files[s.last.value].refreshHash == Sha256(s.store.env))
  }

  ghost predicate CurrentThread(s: System, t: Thread) {
    && t.loaded.file in s.store.files
    && t.loaded.state == s.store.files[t.loaded.file]
    && (t.phase.Refreshing? ==> t.loaded.state.refreshHash == Sha256(t.token))
    && (t.phase.KeyCheck? || t.phase.KeyRefreshing? ==>
          t.loaded.state.refreshHash == Sha256(t.token) || t.token in s.spent)
  }

  /** A new request or tick waits for the one under way; registrations are left to a stopped broker;
      and the portal refuses or rotates a spent token. */
  ghost predicate Serialised(s: System, ev: Event) {
    match ev
    case Request(_, _, _, _) => s.threads == map[]
    case Tick(_, _, _, _) => s.threads == map[]
    case PortalReply(id, _, reply, _) =>
      id in s.threads && s.threads[id].token in s.spent && Succeeds(reply) ==> Rotates(s.threads[id].token, reply)
    case Register(_, _, _, _) => false
    case _ => true
  }

  lemma {:induction false} SerialStart(s: System, ev: Event)
    requires Serial(s) && Serialised(s, ev) && (ev.Request? || ev.Tick?)
    ensures Serial(Step(s, ev))
  {
  }

  /** What the end of a refresh leaves of the files and providers, for a copy that is current. */
  lemma {:induction false} SerialRefresh(
      s: Store, loaded: LoadedFile, token: Token, now: real, reply: Reply, updateOk: bool)
    requires loaded.file in s.files && loaded.state == s.files[loaded.file] && loaded.state.providerName != ""
    ensures
      var (s', loaded', result) := FinishRefresh(s, loaded, token, now, reply, updateOk);
      && loaded'.file == loaded.file && s'.files == s.files[loaded.file := loaded'.state]
      && (if result.Ok? && Rotates(token, reply) then
            && loaded'.state == loaded.state.(refreshHash := Sha256(s'.env))
            && s'.providers == s.providers[loaded.state.providerName := s'.env]
          else
            && loaded' == loaded && s'.files == s.files && s'.providers == s.providers
            && s'.env == if result.Ok? then token else s.env)
      && (result.Ok? ==> Succeeds(reply))
  {
  }

  lemma {:induction false} SerialPortal(s: System, id: nat, now: real, reply: Reply, updateOk: bool)
    requires Serial(s) && id in s.threads && Serialised(s, PortalReply(id, now, reply, updateOk))
    requires s.threads[id].phase.Refreshing? || s.threads[id].phase.KeyRefreshing?
    ensures Serial(FinishPortal(s, id, s.threads[id], now, reply, updateOk))
  {
    var t := s.threads[id];
    assert FileAgrees(s.store, t.loaded.file);
    SerialRefresh(s.store, t.loaded, t.token, now, reply, updateOk);
    var (store, loaded, result) := FinishRefresh(s.store, t.loaded, t.token, now, reply, updateOk);
    var r := FinishPortal(s, id, t, now, reply, updateOk);
    if result.Ok? && Rotates(t.token, reply) {
      assert r.threads[id] == Thread(loaded, t.token, if t.phase.Refreshing? then KeyCheck else Minting);
      SerialRotation(s, r, id, loaded);
    } else {
      assert r.store.files == s.store.files && r.store.providers == s.store.providers;
    }
  }

  lemma {:induction false} SerialRotation(s: System, r: System, id: nat, loaded: LoadedFile)
    requires Serial(s) && id in s.threads && id in r.threads && loaded.file == s.threads[id].loaded.file
    requires loaded.state == s.threads[id].loaded.state.(refreshHash := Sha256(r.store.env))
    requires r.store.files == s.store.files[loaded.file := loaded.state]
    requires r.store.providers == s.store.providers[loaded.state.providerName := r.store.env]
    requires r.threads == s.threads[id := r.threads[id]] && r.threads[id].loaded == loaded
    requires !r.threads[id].phase.Refreshing? && r.threads[id].token in r.spent && r.last == Some(loaded.file)
    ensures Serial(r)
  {
    forall f | f in r.store.files ensures FileAgrees(r.store, f) {
      assert FileAgrees(s.store, f);
    }
  }

  lemma {:induction false} SerialStep(s: System, ev: Event)
    requires Serial(s) && Serialised(s, ev)
    ensures Serial(Step(s, ev))
  {
    match ev
    case Request(_, _, _, _) => SerialStart(s, ev);
    case Tick(_, _, _, _) => SerialStart(s, ev);
    case PortalReply(id, now, reply, updateOk) =>
      if id in s.threads && (s.threads[id].phase.Refreshing? || s.threads[id].phase.KeyRefreshing?) {
        SerialPortal(s, id, now, reply, updateOk);
      }
    case _ =>
  }

  ghost predicate AlwaysSerialised(s: System, evs: seq<Event>)
    decreases |evs|
  {
    evs == [] || (AlwaysSerialised(s, evs[..|evs| - 1]) && Serialised(Run(s, evs[..|evs| - 1]), evs[|evs| - 1]))
  }

  /** Main result: in every serialised run, with background key refreshes, cache hits, refused
      refreshes and failed provider updates, every file stays in agreement with its provider, and the
      environment's token is that of the file whose refresh completed last. */
  lemma {:induction false} SerialRun(s: System, evs: seq<Event>)
    requires Serial(s) && AlwaysSerialised(s, evs)
    ensures Serial(Run(s, evs))
    decreases |evs|
  {
    if evs != [] {
      SerialRun(s, evs[..|evs| - 1]);
      SerialStep(Run(s, evs[..|evs| - 1]), evs[|evs| - 1]);
    }
  }

  // ----- When the token that all agree on is of use -----

  /** The portal refuses spent tokens, and a new token has not been in use before. */
  ghost predicate RefusesSpent(s: System, ev: Event) {
    ev.PortalReply? && ev.id in s.threads && Succeeds(ev.reply) ==>
      && s.threads[ev.id].token !in s.spent
      && (Rotates(s.threads[ev.id].token, ev.reply) ==> NewToken(s, NextToken(s.threads[ev.id].token, ev.reply)))
  }

  ghost predicate NewToken(s: System, token: Token) {
    token !in s.spent && forall p | p in s.store.providers :: s.store.providers[p] != token
  }

  ghost predicate AlwaysRefusesSpent(s: System, evs: seq<Event>)
    decreases |evs|
  {
    evs == [] || (AlwaysRefusesSpent(s, evs[..|evs| - 1]) && RefusesSpent(Run(s, evs[..|evs| - 1]), evs[|evs| - 1]))
  }

  /** The file whose token the portal has just replaced, when its provider could not be updated. */
  ghost function NewlyLost(s: System, ev: Event): set<string> {
    if ev.PortalReply? && ev.id in s.threads
       && (s.threads[ev.id].phase.Refreshing? || s.threads[ev.id].phase.KeyRefreshing?)
       && Rotates(s.threads[ev.id].token, ev.reply) && !ev.updateOk
    then {s.threads[ev.id].loaded.file} else {}
  }

  ghost function Lost(s: System, evs: seq<Event>): set<string>
    decreases |evs|
  {
    if evs == [] then {} else Lost(s, evs[..|evs| - 1]) + NewlyLost(Run(s, evs[..|evs| - 1]), evs[|evs| - 1])
  }

  ghost function ProviderToken(s: Store, file: string): Token
    requires FileAgrees(s, file)
  {
    s.providers[s.files[file].providerName]
  }

  /** Each file has a token of its own, and it is spent exactly for the files that are lost. */
  ghost predicate SpentExactly(s: System, lost: set<string>) {
    && (forall f | f in s.store.files ::
          FileAgrees(s.store, f) && (ProviderToken(s.store, f) in s.spent <==> f in lost))
    && forall f, g | f in s.store.files && g in s.store.files && FileAgrees(s.store, f) && FileAgrees(s.store, g)
         && ProviderToken(s.store, f) == ProviderToken(s.store, g) :: f == g
  }

  lemma {:induction false} SpentRotation(s: System, id: nat, now: real, reply: Reply, updateOk: bool, lost: set<string>)
    requires Serial(s) && SpentExactly(s, lost) && RefusesSpent(s, PortalReply(id, now, reply, updateOk))
    requires id in s.threads && (s.threads[id].phase.Refreshing? || s.threads[id].phase.KeyRefreshing?)
    requires Rotates(s.threads[id].token, reply)
    ensures SpentExactly(FinishPortal(s, id, s.threads[id], now, reply, updateOk),
                         if updateOk then lost else lost + {s.threads[id].loaded.file})
  {
    var t := s.threads[id];
    assert FileAgrees(s.store, t.loaded.file) && ProviderToken(s.store, t.loaded.file) == t.token;
    SerialRefresh(s.store, t.loaded, t.token, now, reply, updateOk);
  }

  lemma {:induction false} SpentKept(s: System, r: System, lost: set<string>)
    requires SpentExactly(s, lost) && TokensStay(s, r)
    ensures SpentExactly(r, lost)
  {
    forall f | f in r.store.files
      ensures FileAgrees(r.store, f) && ProviderToken(r.store, f) == ProviderToken(s.store, f)
    {
      assert FileAgrees(s.store, f);
    }
  }

  lemma {:induction false} SpentStep(s: System, ev: Event, lost: set<string>)
    requires Serial(s) && SpentExactly(s, lost) && Serialised(s, ev) && RefusesSpent(s, ev)
    ensures SpentExactly(Step(s, ev), lost + NewlyLost(s, ev))
  {
    hide SpentExactly, Serial;
    if ev.PortalReply? && ev.id in s.threads
       && (s.threads[ev.id].phase.Refreshing? || s.threads[ev.id].phase.KeyRefreshing?)
       && Rotates(s.threads[ev.id].token, ev.reply) {
      SpentRotation(s, ev.id, ev.now, ev.reply, ev.updateOk, lost);
      assert lost + NewlyLost(s, ev) == if ev.updateOk then lost else lost + {s.threads[ev.id].loaded.file};
    } else {
      NoRotation(s, ev);
      SpentKept(s, Step(s, ev), lost);
      assert lost + NewlyLost(s, ev) == lost;
    }
  }

  /** Tokens, providers and the hashes in the files stay. */
  ghost predicate TokensStay(s: System, r: System) {
    && r.spent == s.spent && r.store.providers == s.store.providers && r.store.files.Keys == s.store.files.Keys
    && forall f | f in s.store.files ::
         && r.store.files[f].providerName == s.store.files[f].providerName
         && r.store.files[f].refreshHash == s.store.files[f].refreshHash
  }

  lemma {:induction false} NoRotation(s: System, ev: Event)
    requires Serial(s) && Serialised(s, ev)
    requires !ev.PortalReply? || ev.id !in s.threads || !Rotates(s.threads[ev.id].token, ev.reply)
             || !(s.threads[ev.id].phase.Refreshing? || s.threads[ev.id].phase.KeyRefreshing?)
    ensures TokensStay(s, Step(s, ev))
  {
    hide TokensStay, Serial, Rotates;
    match ev
    case PortalReply(id, now, reply, updateOk) =>
      if id in s.threads && (s.threads[id].phase.Refreshing? || s.threads[id].phase.KeyRefreshing?) {
        CurrentCopy(s, id);
        NoRotationPortal(s, s.threads[id], id, now, reply, updateOk);
      } else {
        StoreStays(s, s);
      }
    case MintReply(id, now, minted, updateOk) =>
      if id in s.threads && s.threads[id].phase.Minting? {
        CurrentCopy(s, id);
        MintStays(s, id, now, minted, updateOk);
      } else {
        StoreStays(s, s);
      }
    case _ => StoreStays(s, Step(s, ev));
  }

  lemma {:induction false} CurrentCopy(s: System, id: nat)
    requires Serial(s) && id in s.threads
    ensures
      var loaded := s.threads[id].loaded;
      && loaded.file in s.store.files && loaded.state == s.store.files[loaded.file] && loaded.state.providerName != ""
  {
  }

  lemma {:induction false} StoreStays(s: System, r: System)
    requires r.store == s.store && r.spent == s.spent
    ensures TokensStay(s, r)
  {
  }

  lemma {:induction false} NoRotationPortal(s: System, t: Thread, id: nat, now: real, reply: Reply, updateOk: bool)
    requires t.loaded.file in s.store.files && t.loaded.state == s.store.files[t.loaded.file]
    requires t.loaded.state.providerName != "" && !Rotates(t.token, reply)
    ensures TokensStay(s, FinishPortal(s, id, t, now, reply, updateOk))
  {
    SerialRefresh(s.store, t.loaded, t.token, now, reply, updateOk);
  }

  lemma {:induction false} MintStays(s: System, id: nat, now: real, minted: bool, updateOk: bool)
    requires id in s.threads && s.threads[id].phase.Minting? && s.threads[id].loaded.file in s.store.files
    requires s.threads[id].loaded.state == s.store.files[s.threads[id].loaded.file]
    ensures TokensStay(s, Step(s, MintReply(id, now, minted, updateOk)))
  {
  }

  /** Main result: in every serialised run with a portal that refuses spent tokens and issues new ones,
      the token on which a file and its provider agree is spent if and only if some rotation of it
      could not be stored in the provider; from then on the file needs a new registration. */
  lemma {:induction false} SpentRun(s: System, evs: seq<Event>)
    requires Serial(s) && SpentExactly(s, {}) && AlwaysSerialised(s, evs) && AlwaysRefusesSpent(s, evs)
    ensures SpentExactly(Run(s, evs), Lost(s, evs))
    decreases |evs|
  {
    if evs != [] {
      SpentRun(s, evs[..|evs| - 1]);
      SerialRun(s, evs[..|evs| - 1]);
      SpentStep(Run(s, evs[..|evs| - 1]), evs[|evs| - 1], Lost(s, evs[..|evs| - 1]));
    }
  }

  // ----- The access-token cache, in every interleaving -----

  /** A success makes the new access token reusable, under the token that is then current, until two
      minutes before it expires; with a new token, nothing is left under the old one. */
  lemma {:induction false} ReuseWindow(
      s: Store, loaded: LoadedFile, token: Token, now: real, reply: Reply, updateOk: bool, later: real)
    requires Succeeds(reply)
    ensures
      var s' := FinishRefresh(s, loaded, token, now, reply, updateOk).0;
      var expiry := now + (if reply.expiresIn.Some? then reply.expiresIn.value else 900.0) * 1000.0;
      && (CachedAccessToken(s', NextToken(token, reply), later) == Some(reply.accessToken)
          <==> expiry != 0.0 && later <= expiry - 120_000.0)
      && (Rotates(token, reply) ==> CachedAccessToken(s', token, later) == None)
  {
  }

  /** The portal never makes a spent token current again: it refuses one, or issues a new token. */
  ghost predicate HonoursRotation(s: System, ev: Event) {
    ev.PortalReply? && ev.id in s.threads && Succeeds(ev.reply) ==>
      NextToken(s.threads[ev.id].token, ev.reply) !in s.spent
  }

  ghost predicate AlwaysHonoursRotation(s: System, evs: seq<Event>)
    decreases |evs|
  {
    evs == [] || (var front := evs[..|evs| - 1];
      AlwaysHonoursRotation(s, front) && HonoursRotation(Run(s, front), evs[|evs| - 1]))
  }

  /** With such a portal, in every interleaving, no access token is ever handed out for a spent
      refresh token. */
  lemma {:induction false} SpentNeverCached(s: System, evs: seq<Event>)
    requires AlwaysHonoursRotation(s, evs) && forall t | t in s.spent :: Sha256(t) !in s.store.cache
    ensures forall t, now | t in Run(s, evs).spent :: CachedAccessToken(Run(s, evs).store, t, now) == None
    ensures forall t | t in Run(s, evs).spent :: Sha256(t) !in Run(s, evs).store.cache
    decreases |evs|
  {
    if evs != [] {
      SpentNeverCached(s, evs[..|evs| - 1]);
      SpentStepNeverCached(Run(s, evs[..|evs| - 1]), evs[|evs| - 1]);
    }
  }

  lemma {:induction false} SpentStepNeverCached(s: System, ev: Event)
    requires HonoursRotation(s, ev) && forall t | t in s.spent :: Sha256(t) !in s.store.cache
    ensures forall t | t in Step(s, ev).spent :: Sha256(t) !in Step(s, ev).store.cache
  {
  }

  // ----- Where the runs start, and what goes wrong when the conditions fail -----

  /** A broker started with the refresh token that a first registration stored. */
  function Registered(sandbox: string, refreshToken: Token, generated: Token): System {
    FinishRegister(System(Store(map[], map[], refreshToken, map[]), map[], {}, None),
                   sandbox, refreshToken, generated, true)
  }

  lemma {:induction false} RegisteredStarts(sandbox: string, refreshToken: Token, generated: Token)
    requires generated != ""
    ensures
      var s := Registered(sandbox, refreshToken, generated);
      && Issued(s, map[sandbox := generated]) && OnFile(s, sandbox) && Agrees(s.store, sandbox) && Serial(s)
      && SpentExactly(s, {})
  {
    assert |ProviderName(sandbox)| > 0;
  }

  /** Two requests with the same token wait for the portal. */
  function TwoWaiting(): System {
    Step(Step(Registered("box", "r0", "b"), Request(0, "b", "box", 1.0)), Request(1, "b", "box", 1.0))
  }

  lemma {:induction false} TwoWaitingState()
    ensures
      var state := FileState(ProviderName("box"), "b", Some(Sha256("b")), Sha256("r0"), None);
      var thread := Thread(LoadedFile("box", state), "r0", Refreshing);
      TwoWaiting() == System(Store(map[], map["box" := state], "r0", map[ProviderName("box") := "r0"]),
                             map[0 := thread, 1 := thread], {}, None)
  {
    var s := Registered("box", "r0", "b");
    assert |ProviderName("box")| > 0;
    assert Identifies(s.store.files, "b", "box") && RuntimeToken(s.store, s.store.files["box"]) == Some("r0");
  }

  /** The portal rotates the token for the first, and still honours it, without a new one, for the second.
      The environment goes back to the spent token, and the next request is turned away. */
  lemma {:induction false} HonouredSpentTokenBreaks()
    ensures
      var s2 := Step(TwoWaiting(), PortalReply(0, 2.0, Payload("a0", None, "r1"), true));
      var s3 := Step(s2, PortalReply(1, 3.0, Payload("a1", None, ""), true));
      && Agrees(s2.store, "box") && !Agrees(s3.store, "box") && FileAgrees(s3.store, "box")
      && RuntimeToken(s3.store, s3.store.files["box"]) == None
  {
    hide TwoWaiting;
    TwoWaitingState();
    assert |ProviderName("box")| > 0;
  }

  /** The portal rotates the token and the provider update fails: provider, file and environment still
      agree, on a spent token with nothing cached. */
  lemma {:induction false} FailedUpdateLosesToken(now: real)
    ensures
      var s0 := Registered("box", "r0", "b");
      var s := Step(Step(s0, Request(0, "b", "box", 1.0)), PortalReply(0, 2.0, Payload("a0", None, "r1"), false));
      && SpentExactly(s0, {}) && Agrees(s.store, "box") && s.store.env in s.spent
      && CachedAccessToken(s.store, s.store.env, now) == None
  {
    var s1 := Step(Registered("box", "r0", "b"), Request(0, "b", "box", 1.0));
    assert s1.threads[0].token == "r0" && s1.threads[0].phase == Refreshing;
  }

  /** A timer tick has rotated the token and waits for the minted key; the access token it got lives
      for 60 seconds, too short to be reused. */
  function TickWaiting(): System {
    Step(Step(Registered("box", "r0", "b"), Tick(1, "box", false, 1.0)),
         PortalReply(1, 2.0, Payload("a1", Some(60.0), "r1"), true))
  }

  lemma {:induction false} TickWaitingState()
    ensures
      var s := TickWaiting();
      var state := FileState(ProviderName("box"), "b", Some(Sha256("b")), Sha256("r1"), None);
      && s.threads == map[1 := Thread(LoadedFile("box", state), "r0", Minting)]
      && s.store == Store(map[Sha256("r1") := CacheEntry("a1", 60002.0)], map["box" := state], "r1",
                          map[ProviderName("box") := "r1"])
  {
    var s := Step(Registered("box", "r0", "b"), Tick(1, "box", false, 1.0));
    assert s.threads[1].phase == KeyRefreshing && s.threads[1].token == "r0";
  }

  /** A request then rotates the token once more before the key arrives ... */
  function RotatedAgain(): System {
    Step(Step(TickWaiting(), Request(0, "b", "box", 3.0)), PortalReply(0, 4.0, Payload("a2", None, "r2"), true))
  }

  lemma {:induction false} RotatedAgainState()
    ensures
      var s, s1 := TickWaiting(), RotatedAgain();
      && 1 in s.threads && 1 in s1.threads && s1.threads[1] == s.threads[1] && s1.store.env == "r2"
      && ProviderName("box") in s1.store.providers && s1.store.providers[ProviderName("box")] == "r2"
      && "box" in s1.store.files && s1.store.files["box"].refreshHash == Sha256("r2")
      && s1.store.files["box"].providerName == ProviderName("box")
  {
    TickWaitingState();
    var s := TickWaiting();
    assert |ProviderName("box")| > 0;
    assert Identifies(s.store.files, "b", "box") && RuntimeToken(s.store, s.store.files["box"]) == Some("r1");
    var s1 := Step(s, Request(0, "b", "box", 3.0));
    assert s1.threads[0] == Thread(LoadedFile("box", s.store.files["box"]), "r1", Refreshing);
  }

  /** ... and the tick's key write puts the old hash back: the file no longer agrees with its provider,
      and the next request is turned away. */
  lemma {:induction false} StaleKeyWriteBreaks()
    ensures
      var s := Step(RotatedAgain(), MintReply(1, 5.0, true, true));
      && Agrees(RotatedAgain().store, "box") && !FileAgrees(s.store, "box")
      && "box" in s.store.files && RuntimeToken(s.store, s.store.files["box"]) == None
  {
    TickWaitingState();
    RotatedAgainState();
    hide RotatedAgain, TickWaiting;
    assert RotatedAgain().threads[1].phase == Minting;
  }
}
