/** Registry recovery, src/lib/registry-recovery-action.ts: the onboarding session and the live
    gateway are merged into the registry.  Loading the session, asking the gateway and listing its
    sandboxes are parameters. */
module Recovery {
  import opened Wrappers

  /** A registry entry; `messagingChannels` stands for the fields that a recovery never writes. */
  datatype Entry = Entry(
    model: Option<string>, provider: Option<string>, gpuEnabled: bool, policies: Option<seq<string>>,
    nimContainer: Option<string>, agent: Option<string>, messagingChannels: seq<string>)

  datatype Metadata = Metadata(
    model: Option<string>, provider: Option<string>, gpuEnabled: bool, policies: Option<seq<string>>,
    policyPresets: Option<seq<string>>, nimContainer: Option<string>, agent: Option<string>)

  const NO_METADATA := Metadata(None, None, false, None, None, None, None)

  datatype Session = Session(
    sandboxName: Option<string>, sandboxStepComplete: bool, model: Option<string>, provider: Option<string>,
    nimContainer: Option<string>, policyPresets: Option<seq<string>>)

  /** What the gateway shows: nothing, unless it can be inspected. */
  datatype Gateway = Gateway(inspectable: bool, liveNames: seq<string>)

  datatype State = State(sandboxes: map<string, Entry>, defaultSandbox: Option<string>)

  predicate IsLower(c: char) { 'a' <= c <= 'z' }

  predicate IsNameChar(c: char) { IsLower(c) || '0' <= c <= '9' || c == '-' }

  /** validateName: 1 to 63 characters, a lower-case letter first and no hyphen last. */
  predicate ValidName(name: string) {
    && 0 < |name| <= 63 && IsLower(name[0]) && name[|name| - 1] != '-'
    && forall c | c in name :: IsNameChar(c)
  }

  /** JavaScript's `value || null` on strings. */
  function OrNull(s: Option<string>): Option<string> {
    if s == Some("") then None else s
  }

  predicate Truthy(s: Option<string>) {
    OrNull(s).Some?
  }

  /** The fields that buildRecoveredSandboxEntry sets, laid over an entry. */
  function Overlay(e: Entry, m: Metadata): Entry {
    var policies := if m.policies.Some? then m.policies.value
                    else if m.policyPresets.Some? then m.policyPresets.value else [];
    Entry(OrNull(m.model), OrNull(m.provider), m.gpuEnabled, Some(policies), OrNull(m.nimContainer), OrNull(m.agent),
          e.messagingChannels)
  }

  const BLANK := Entry(None, None, false, None, None, None, [])

  function Described(e: Entry): Metadata {
    Metadata(e.model, e.provider, e.gpuEnabled, e.policies, None, e.nimContainer, e.agent)
  }

  /** upsertRecoveredSandbox: the new state, and whether a sandbox was added. */
  function Upsert(s: State, name: string, m: Metadata): (State, bool) {
    if !ValidName(name) then (s, false)
    else if name in s.sandboxes then (s.(sandboxes := s.sandboxes[name := Overlay(s.sandboxes[name], m)]), false)
    else
      var default := if Truthy(s.defaultSandbox) then s.defaultSandbox else Some(name);
      (State(s.sandboxes[name := Overlay(BLANK, m)], default), true)
  }

  predicate Confirmed(session: Option<Session>) {
    session.Some? && Truthy(session.value.sandboxName) && session.value.sandboxStepComplete
  }

  function SessionMetadata(session: Session): Metadata {
    Described(Overlay(BLANK, NO_METADATA.(model := session.model, provider := session.provider,
      nimContainer := session.nimContainer, policyPresets := session.policyPresets)))
  }

  predicate ShouldRecover(s: State, session: Option<Session>, requested: Option<string>) {
    var sessionName := if session.Some? then session.value.sandboxName else None;
    var missingSession := Truthy(sessionName) && sessionName.value !in s.sandboxes;
    var missingRequested := Truthy(requested) && requested.value !in s.sandboxes;
    var hasSeed := s.sandboxes != map[] || Truthy(sessionName) || Truthy(requested);
    hasSeed && (s.sandboxes == map[] || missingRequested || missingSession)
  }

  /** The metadata by name: the entries of the registry, and the session's for a confirmed session. */
  function MetadataByName(s: State, session: Option<Session>): map<string, Metadata> {
    var own := map name | name in s.sandboxes :: Described(s.sandboxes[name]);
    if Confirmed(session) then own[session.value.sandboxName.value := SessionMetadata(session.value)] else own
  }

  /** When seedRecoveryMetadata upserts the session's sandbox. */
  predicate SeedsSession(s: State, session: Option<Session>, requested: Option<string>) {
    && Confirmed(session)
    && (|| s.sandboxes == map[]
        || session.value.sandboxName.value !in s.sandboxes
        || requested == session.value.sandboxName)
  }

  function Seed(s: State, session: Option<Session>, requested: Option<string>): (State, bool) {
    if SeedsSession(s, session, requested)
    then Upsert(s, session.value.sandboxName.value, SessionMetadata(session.value)) else (s, false)
  }

  function MetadataFor(metadata: map<string, Metadata>, name: string): Metadata {
    if name in metadata then metadata[name] else NO_METADATA
  }

  /** The first `n` live names: the new state and the number of sandboxes added. */
  function AddLive(s: State, metadata: map<string, Metadata>, names: seq<string>, n: nat): (State, nat)
    requires n <= |names|
  {
    if n == 0 then (s, 0)
    else
      var (before, count) := AddLive(s, metadata, names, n - 1);
      var (after, added) := Upsert(before, names[n - 1], MetadataFor(metadata, names[n - 1]));
      (after, if added then count + 1 else count)
  }

  function Merge(s: State, metadata: map<string, Metadata>, gateway: Gateway): (State, nat) {
    if gateway.inspectable then AddLive(s, metadata, gateway.liveNames, |gateway.liveNames|) else (s, 0)
  }

  function ApplyDefault(s: State, current: Option<string>, requested: Option<string>, session: Option<Session>): State {
    var sessionName := if session.Some? then OrNull(session.value.sandboxName) else None;
    var preferred := if Truthy(requested) then requested
                     else if !Truthy(current) then sessionName else None;
    if preferred.Some? && preferred.value in s.sandboxes then s.(defaultSandbox := preferred) else s
  }

  datatype Recovered = Recovered(state: State, fromSession: bool, fromGateway: nat)

  /** recoverRegistryEntries */
  function Recover(s: State, session: Option<Session>, requested: Option<string>, gateway: Gateway): Recovered {
    if !ShouldRecover(s, session, requested) then Recovered(s, false, 0)
    else
      var (seeded, fromSession) := Seed(s, session, requested);
      var (merged, fromGateway) := Merge(seeded, MetadataByName(s, session), gateway);
      Recovered(ApplyDefault(merged, s.defaultSandbox, requested, session), fromSession, fromGateway)
  }

  // ----- The registry updated in place -----

  class Registry {
    var sandboxes: map<string, Entry>
    var defaultSandbox: Option<string>

    ghost function Contents(): State
      reads this
    {
      State(sandboxes, defaultSandbox)
    }

    method UpsertRecoveredSandbox(name: string, metadata: Metadata) returns (added: bool)
      modifies this
      ensures (Contents(), added) == Upsert(old(Contents()), name, metadata)
    {
      if !ValidName(name) {
        return false;
      }
      if name in sandboxes {
        sandboxes := sandboxes[name := Overlay(sandboxes[name], metadata)];
        return false;
      }
      sandboxes := sandboxes[name := Overlay(BLANK, metadata)];
      if !Truthy(defaultSandbox) {
        defaultSandbox := Some(name);
      }
      return true;
    }

    method SeedRecoveryMetadata(session: Option<Session>, requested: Option<string>)
        returns (metadataByName: map<string, Metadata>, recoveredFromSession: bool)
      modifies this
      ensures metadataByName == MetadataByName(old(Contents()), session)
      ensures (Contents(), recoveredFromSession) == Seed(old(Contents()), session, requested)
    {
      metadataByName := map name | name in sandboxes :: Described(sandboxes[name]);
      recoveredFromSession := false;
      if !Confirmed(session) {
        return;
      }
      var name := session.value.sandboxName.value;
      metadataByName := metadataByName[name := SessionMetadata(session.value)];
      if sandboxes == map[] || name !in sandboxes || requested == Some(name) {
        recoveredFromSession := UpsertRecoveredSandbox(name, metadataByName[name]);
      }
    }

    method RecoverFromLiveGateway(metadataByName: map<string, Metadata>, gateway: Gateway) returns (count: nat)
      modifies this
      ensures (Contents(), count) == Merge(old(Contents()), metadataByName, gateway)
    {
      count := 0;
      if !gateway.inspectable {
        return;
      }
      for i := 0 to |gateway.liveNames|
        invariant (Contents(), count) == AddLive(old(Contents()), metadataByName, gateway.liveNames, i)
      {
        var name := gateway.liveNames[i];
        var added := UpsertRecoveredSandbox(name, if name in metadataByName then metadataByName[name] else NO_METADATA);
        if added {
          count := count + 1;
        }
      }
    }

    method RecoverRegistryEntries(session: Option<Session>, requested: Option<string>, gateway: Gateway)
        returns (fromSession: bool, fromGateway: nat)
      modifies this
      ensures Recovered(Contents(), fromSession, fromGateway) == Recover(old(Contents()), session, requested, gateway)
    {
      var current := defaultSandbox;
      if !ShouldRecover(State(sandboxes, defaultSandbox), session, requested) {
        return false, 0;
      }
      var metadataByName;
      metadataByName, fromSession := SeedRecoveryMetadata(session, requested);
      fromGateway := RecoverFromLiveGateway(metadataByName, gateway);
      var preferred := if Truthy(requested) then requested
                       else if !Truthy(current) && session.Some? then OrNull(session.value.sandboxName) else None;
      if preferred.Some? && preferred.value in sandboxes {
        defaultSandbox := preferred;
      }
    }
  }

  // ----- What the pieces mean -----

  /** The names that the registry accepts: `[a-z]([a-z0-9-]*[a-z0-9])?`, at most 63 characters. */
  lemma {:induction false} ValidNameExact(name: string)
    ensures ValidName(name) <==>
      && 1 <= |name| <= 63 && 'a' <= name[0] <= 'z'
      && ('a' <= name[|name| - 1] <= 'z' || '0' <= name[|name| - 1] <= '9')
      && forall i | 0 <= i < |name| :: 'a' <= name[i] <= 'z' || '0' <= name[i] <= '9' || name[i] == '-'
  {
    assert forall i | 0 <= i < |name| :: name[i] in name;
  }

  /** `name` is what the caller asked for, or the name of the session, and no sandbox has it. */
  ghost predicate Missing(s: State, session: Option<Session>, requested: Option<string>, name: string) {
    && name != "" && name !in s.sandboxes
    && (requested == Some(name) || (session.Some? && session.value.sandboxName == Some(name)))
  }

  /** Main result: a recovery runs exactly when such a name is missing. */
  lemma {:induction false} RecoversWhenMissing(s: State, session: Option<Session>, requested: Option<string>)
    ensures ShouldRecover(s, session, requested) <==> exists name :: Missing(s, session, requested, name)
  {
    if ShouldRecover(s, session, requested) {
      if Truthy(requested) && requested.value !in s.sandboxes {
        assert Missing(s, session, requested, requested.value);
      } else {
        assert Missing(s, session, requested, session.value.sandboxName.value);
      }
    }
    if name :| Missing(s, session, requested, name) {
      assert OrNull(Some(name)) == Some(name);
    }
  }

  ghost function NonEmpty(s: Option<string>): Option<string> {
    if s.Some? && s.value != "" then s else None
  }

  /** An entry rewritten from its own metadata keeps its content, up to empty strings and a missing list. */
  lemma {:induction false} NormalIs(e: Entry)
    ensures Normal(e) ==
      Entry(NonEmpty(e.model), NonEmpty(e.provider), e.gpuEnabled,
            Some(if e.policies.Some? then e.policies.value else []), NonEmpty(e.nimContainer), NonEmpty(e.agent),
            e.messagingChannels)
  {
  }

  /** An entry written from a session takes model, provider, container and presets from that, has neither
      GPU nor agent, and keeps the fields that a recovery never writes. */
  ghost function FromSessionEntry(session: Session, channels: seq<string>): Entry {
    Entry(NonEmpty(session.model), NonEmpty(session.provider), false,
          Some(if session.policyPresets.Some? then session.policyPresets.value else []),
          NonEmpty(session.nimContainer), None, channels)
  }

  lemma {:induction false} SessionEntryIs(e: Entry, session: Session)
    ensures Overlay(e, SessionMetadata(session)) == FromSessionEntry(session, e.messagingChannels)
  {
  }

  // ----- Which sandboxes there are afterwards -----

  lemma {:induction false} UpsertNames(s: State, name: string, m: Metadata)
    ensures Upsert(s, name, m).0.sandboxes.Keys == s.sandboxes.Keys + OneName(name)
  {
  }

  lemma {:induction false} UpsertCount(s: State, name: string, m: Metadata)
    ensures |Upsert(s, name, m).0.sandboxes| == |s.sandboxes| + (if Upsert(s, name, m).1 then 1 else 0)
  {
  }

  /** The valid ones of the first `n` names. */
  ghost function ValidNames(names: seq<string>, n: nat): set<string>
    requires n <= |names|
  {
    if n == 0 then {} else ValidNames(names, n - 1) + OneName(names[n - 1])
  }

  ghost function OneName(name: string): set<string> {
    if ValidName(name) then {name} else {}
  }

  lemma {:induction false} ValidNamesAre(names: seq<string>, n: nat)
    requires n <= |names|
    ensures ValidNames(names, n) == set name | name in names[..n] && ValidName(name)
  {
    if n > 0 {
      ValidNamesAre(names, n - 1);
      assert names[..n] == names[..n - 1] + [names[n - 1]];
    }
  }

  lemma {:induction false} AddLiveNames(s: State, metadata: map<string, Metadata>, names: seq<string>, n: nat)
    requires n <= |names|
    ensures AddLive(s, metadata, names, n).0.sandboxes.Keys == s.sandboxes.Keys + ValidNames(names, n)
  {
    if n > 0 {
      AddLiveNames(s, metadata, names, n - 1);
      var before := AddLive(s, metadata, names, n - 1).0;
      UpsertNames(before, names[n - 1], MetadataFor(metadata, names[n - 1]));
    }
  }

  lemma {:induction false} AddLiveCount(s: State, metadata: map<string, Metadata>, names: seq<string>, n: nat)
    requires n <= |names|
    ensures |AddLive(s, metadata, names, n).0.sandboxes| == |s.sandboxes| + AddLive(s, metadata, names, n).1
  {
    if n > 0 {
      AddLiveCount(s, metadata, names, n - 1);
      var before := AddLive(s, metadata, names, n - 1).0;
      UpsertCount(before, names[n - 1], MetadataFor(metadata, names[n - 1]));
    }
  }

  /** The names that a recovery adds: that of a confirmed session, and the live ones, if valid. */
  ghost function FromSession(session: Option<Session>): set<string> {
    if Confirmed(session) then OneName(session.value.sandboxName.value) else {}
  }

  ghost function FromGateway(gateway: Gateway): set<string> {
    if gateway.inspectable then ValidNames(gateway.liveNames, |gateway.liveNames|) else {}
  }

  lemma {:induction false} SeedNames(s: State, session: Option<Session>, requested: Option<string>)
    ensures Seed(s, session, requested).0.sandboxes.Keys == s.sandboxes.Keys + FromSession(session)
  {
    if SeedsSession(s, session, requested) {
      UpsertNames(s, session.value.sandboxName.value, SessionMetadata(session.value));
    }
  }

  /** Main result: a recovery that runs keeps every sandbox, adds the valid name of a confirmed session
      and, if the gateway can be inspected, the valid live names, and nothing else; and its two
      counters add up to the number of sandboxes added. */
  lemma {:induction false} RecoveredNames(
      s: State, session: Option<Session>, requested: Option<string>, gateway: Gateway)
    ensures Recover(s, session, requested, gateway).state.sandboxes.Keys ==
      if ShouldRecover(s, session, requested) then s.sandboxes.Keys + FromSession(session) + FromGateway(gateway)
      else s.sandboxes.Keys
    ensures
      var r := Recover(s, session, requested, gateway);
      |r.state.sandboxes| == |s.sandboxes| + r.fromGateway + if r.fromSession then 1 else 0
  {
    RecoveredKeys(s, session, requested, gateway);
    RecoveredCount(s, session, requested, gateway);
  }

  lemma {:induction false} RecoveredKeys(
      s: State, session: Option<Session>, requested: Option<string>, gateway: Gateway)
    ensures Recover(s, session, requested, gateway).state.sandboxes.Keys ==
      if ShouldRecover(s, session, requested) then s.sandboxes.Keys + FromSession(session) + FromGateway(gateway)
      else s.sandboxes.Keys
  {
    SeedNames(s, session, requested);
    var seeded := Seed(s, session, requested).0;
    if gateway.inspectable {
      AddLiveNames(seeded, MetadataByName(s, session), gateway.liveNames, |gateway.liveNames|);
    }
  }

  lemma {:induction false} RecoveredCount(
      s: State, session: Option<Session>, requested: Option<string>, gateway: Gateway)
    ensures
      var r := Recover(s, session, requested, gateway);
      |r.state.sandboxes| == |s.sandboxes| + r.fromGateway + if r.fromSession then 1 else 0
  {
    if SeedsSession(s, session, requested) {
      UpsertCount(s, session.value.sandboxName.value, SessionMetadata(session.value));
    }
    var seeded := Seed(s, session, requested).0;
    if gateway.inspectable {
      AddLiveCount(seeded, MetadataByName(s, session), gateway.liveNames, |gateway.liveNames|);
    }
  }

  // ----- What becomes of the entries -----

  /** An entry as a recovery rewrites it from its own metadata. */
  ghost function Normal(e: Entry): Entry {
    Overlay(e, Described(e))
  }

  /** Whether a recovery writes the entry of a sandbox that the registry has. */
  ghost predicate Rewritten(
      s: State, session: Option<Session>, requested: Option<string>, gateway: Gateway, name: string) {
    && ShouldRecover(s, session, requested) && ValidName(name)
    && ((gateway.inspectable && name in gateway.liveNames)
        || (requested == Some(name) && session.Some? && session.value.sandboxName == Some(name)
            && session.value.sandboxStepComplete))
  }

  lemma {:induction false} AddLiveEntry(
      s: State, metadata: map<string, Metadata>, names: seq<string>, n: nat, name: string)
    requires n <= |names| && name in s.sandboxes
    ensures var (r, _) := AddLive(s, metadata, names, n);
      && name in r.sandboxes
      && r.sandboxes[name] == if name in names[..n] && ValidName(name)
           then Overlay(s.sandboxes[name], MetadataFor(metadata, name)) else s.sandboxes[name]
  {
    if n > 0 {
      AddLiveEntry(s, metadata, names, n - 1, name);
      assert names[..n] == names[..n - 1] + [names[n - 1]];
    }
  }

  /** Main result: a sandbox that the registry has keeps its entry, unless the recovery writes it; then
      it is put in normal form, or, for the sandbox of a confirmed session, overwritten from the
      session, which knows neither the agent nor the GPU. */
  lemma {:induction false} RecoveredEntries(
      s: State, session: Option<Session>, requested: Option<string>, gateway: Gateway, name: string)
    requires name in s.sandboxes
    ensures
      var r := Recover(s, session, requested, gateway).state;
      && name in r.sandboxes
      && r.sandboxes[name] ==
           if !Rewritten(s, session, requested, gateway, name) then s.sandboxes[name]
           else if Confirmed(session) && session.value.sandboxName == Some(name)
             then FromSessionEntry(session.value, s.sandboxes[name].messagingChannels)
           else Normal(s.sandboxes[name])
  {
    if session.Some? {
      SessionEntryIs(s.sandboxes[name], session.value);
    }
    if ShouldRecover(s, session, requested) && gateway.inspectable {
      var (seeded, _) := Seed(s, session, requested);
      var names := gateway.liveNames;
      AddLiveEntry(seeded, MetadataByName(s, session), names, |names|, name);
      assert names[..|names|] == names;
    }
  }

  lemma {:induction false} AddLiveNewEntry(
      s: State, metadata: map<string, Metadata>, names: seq<string>, n: nat, name: string)
    requires n <= |names| && name !in s.sandboxes
    ensures var (r, _) := AddLive(s, metadata, names, n);
      name in r.sandboxes ==> r.sandboxes[name] == Overlay(BLANK, MetadataFor(metadata, name))
  {
    if n > 0 {
      AddLiveNewEntry(s, metadata, names, n - 1, name);
    }
  }

  /** Main result: a sandbox that the recovery adds has the content of the session if it is that of a
      confirmed one, and is blank otherwise. */
  lemma {:induction false} AddedEntries(
      s: State, session: Option<Session>, requested: Option<string>, gateway: Gateway, name: string)
    requires name !in s.sandboxes && name in Recover(s, session, requested, gateway).state.sandboxes
    ensures Recover(s, session, requested, gateway).state.sandboxes[name] ==
      if session.Some? && session.value.sandboxName == Some(name) && session.value.sandboxStepComplete
      then FromSessionEntry(session.value, [])
      else Entry(None, None, false, Some([]), None, None, [])
  {
    hide Overlay, ValidName, ShouldRecover, SessionMetadata, AddLive;
    var seeded := Seed(s, session, requested).0;
    var metadata := MetadataByName(s, session);
    if name in seeded.sandboxes {
      SeededEntry(s, session, requested, name);
    }
    if name !in seeded.sandboxes {
      AddLiveNewEntry(seeded, metadata, gateway.liveNames, |gateway.liveNames|, name);
    } else if gateway.inspectable {
      AddLiveEntry(seeded, metadata, gateway.liveNames, |gateway.liveNames|, name);
    }
    BlankEntries(s, session, name);
    AddedIsNamed(s, session, requested, gateway, name);
    if Confirmed(session) && session.value.sandboxName == Some(name) {
      OverlayTwice(BLANK, SessionMetadata(session.value));
    }
  }

  lemma {:induction false} AddedIsNamed(
      s: State, session: Option<Session>, requested: Option<string>, gateway: Gateway, name: string)
    requires name !in s.sandboxes && name in Recover(s, session, requested, gateway).state.sandboxes
    ensures name != ""
  {
    hide ShouldRecover, Recover;
    RecoveredKeys(s, session, requested, gateway);
    ValidNamesAre(gateway.liveNames, |gateway.liveNames|);
    assert !ValidName("");
  }

  lemma {:induction false} SeededEntry(s: State, session: Option<Session>, requested: Option<string>, name: string)
    requires name !in s.sandboxes && name in Seed(s, session, requested).0.sandboxes
    ensures Confirmed(session) && session.value.sandboxName == Some(name)
    ensures Seed(s, session, requested).0.sandboxes[name] == Overlay(BLANK, SessionMetadata(session.value))
  {
  }

  lemma {:induction false} OverlayTwice(e: Entry, m: Metadata)
    ensures Overlay(Overlay(e, m), m) == Overlay(e, m)
  {
  }

  /** What a new entry is made from. */
  lemma {:induction false} BlankEntries(s: State, session: Option<Session>, name: string)
    requires name !in s.sandboxes
    ensures Overlay(BLANK, MetadataFor(MetadataByName(s, session), name)) ==
      if session.Some? && session.value.sandboxName == Some(name) && name != "" && session.value.sandboxStepComplete
      then FromSessionEntry(session.value, [])
      else Entry(None, None, false, Some([]), None, None, [])
  {
  }

  /** So the agent recorded for a sandbox survives a recovery if and only if the sandbox is not written
      from a confirmed session, or had no agent. */
  lemma {:induction false} AgentKeptExact(
      s: State, session: Option<Session>, requested: Option<string>, gateway: Gateway, name: string)
    requires name in s.sandboxes && s.sandboxes[name].agent != Some("")
    ensures Recover(s, session, requested, gateway).state.sandboxes.Keys >= {name}
    ensures Recover(s, session, requested, gateway).state.sandboxes[name].agent == s.sandboxes[name].agent <==>
      || s.sandboxes[name].agent == None
      || !Rewritten(s, session, requested, gateway, name)
      || !Confirmed(session) || session.value.sandboxName != Some(name)
  {
    RecoveredEntries(s, session, requested, gateway, name);
  }

  lemma {:induction false} AddLiveDefault(s: State, metadata: map<string, Metadata>, names: seq<string>, n: nat)
    requires n <= |names| && Truthy(s.defaultSandbox)
    ensures AddLive(s, metadata, names, n).0.defaultSandbox == s.defaultSandbox
  {
    if n > 0 {
      AddLiveDefault(s, metadata, names, n - 1);
    }
  }

  /** The first of the first `n` names that is valid and not known. */
  ghost function FirstNew(known: set<string>, names: seq<string>, n: nat): Option<string>
    requires n <= |names|
  {
    if n == 0 then None
    else if FirstNew(known, names, n - 1).Some? then FirstNew(known, names, n - 1)
    else if ValidName(names[n - 1]) && names[n - 1] !in known then Some(names[n - 1]) else None
  }

  /** Without a default, the first sandbox added becomes it. */
  lemma {:induction false} AddLiveFirst(s: State, metadata: map<string, Metadata>, names: seq<string>, n: nat)
    requires n <= |names| && !Truthy(s.defaultSandbox)
    ensures
      var r, first := AddLive(s, metadata, names, n).0, FirstNew(s.sandboxes.Keys, names, n);
      if first.Some? then Truthy(first) && r.defaultSandbox == first
      else r.defaultSandbox == s.defaultSandbox && r.sandboxes.Keys == s.sandboxes.Keys
  {
    if n > 0 {
      AddLiveFirst(s, metadata, names, n - 1);
      var before := AddLive(s, metadata, names, n - 1).0;
      UpsertNames(before, names[n - 1], MetadataFor(metadata, names[n - 1]));
    }
  }

  /** The first sandbox that a recovery adds: the session's, or the first new live one. */
  ghost function FirstAdded(
      s: State, session: Option<Session>, requested: Option<string>, gateway: Gateway): Option<string> {
    if Seed(s, session, requested).1 then session.value.sandboxName
    else if gateway.inspectable then FirstNew(s.sandboxes.Keys, gateway.liveNames, |gateway.liveNames|)
    else None
  }

  /** What the default is after the merge, when none was set. */
  lemma {:induction false} MergedFirst(s: State, session: Option<Session>, requested: Option<string>, gateway: Gateway)
    requires !Truthy(s.defaultSandbox)
    ensures
      var merged := Merge(Seed(s, session, requested).0, MetadataByName(s, session), gateway).0;
      var first := FirstAdded(s, session, requested, gateway);
      merged.defaultSandbox == if first.Some? then first else s.defaultSandbox
  {
    var (seeded, added) := Seed(s, session, requested);
    if gateway.inspectable {
      if added {
        AddLiveDefault(seeded, MetadataByName(s, session), gateway.liveNames, |gateway.liveNames|);
      } else {
        assert seeded.sandboxes.Keys == s.sandboxes.Keys;
        AddLiveFirst(seeded, MetadataByName(s, session), gateway.liveNames, |gateway.liveNames|);
      }
    }
  }

  /** The default after a recovery that runs: the requested sandbox once the registry has it; otherwise
      a default that was set stays; otherwise, unless another sandbox was requested, the session's if
      the registry has it; otherwise the first sandbox added, if any. */
  lemma {:induction false} RecoveredDefault(
      s: State, session: Option<Session>, requested: Option<string>, gateway: Gateway)
    requires ShouldRecover(s, session, requested)
    ensures
      var r := Recover(s, session, requested, gateway).state;
      var sessionName := if session.Some? then session.value.sandboxName else None;
      var first := FirstAdded(s, session, requested, gateway);
      r.defaultSandbox ==
        if Truthy(requested) && requested.value in r.sandboxes then requested
        else if Truthy(s.defaultSandbox) then s.defaultSandbox
        else if !Truthy(requested) && Truthy(sessionName) && sessionName.value in r.sandboxes then sessionName
        else if first.Some? then first
        else s.defaultSandbox
  {
    var seeded := Seed(s, session, requested).0;
    if Truthy(s.defaultSandbox) {
      if gateway.inspectable {
        AddLiveDefault(seeded, MetadataByName(s, session), gateway.liveNames, |gateway.liveNames|);
      }
    } else {
      MergedFirst(s, session, requested, gateway);
    }
  }

  /** A second recovery from the same sources adds nothing. */
  lemma {:induction false} RecoverTwice(s: State, session: Option<Session>, requested: Option<string>, gateway: Gateway)
    ensures
      var r := Recover(s, session, requested, gateway);
      var again := Recover(r.state, session, requested, gateway);
      again.state.sandboxes.Keys == r.state.sandboxes.Keys && !again.fromSession && again.fromGateway == 0
  {
    var r := Recover(s, session, requested, gateway);
    RecoveredNames(s, session, requested, gateway);
    RecoveredNames(r.state, session, requested, gateway);
  }
}
