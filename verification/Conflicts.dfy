/** Cross-sandbox channel conflicts, as detected by src/lib/messaging-conflict.ts in two separately
    written ways: for one sandbox's requests, and over all pairs of the registry. */
module Conflicts {
  import opened Wrappers

  /** A registry entry.  A missing hash and an empty one are the same to the source. */
  datatype SandboxEntry = SandboxEntry(
    name: string, messagingChannels: Option<seq<string>>, disabledChannels: seq<string>, hashes: map<string, string>)

  datatype Reason = MatchingToken | UnknownToken

  datatype Conflict = Conflict(channel: string, sandbox: string, reason: Reason)

  datatype Overlap = Overlap(channel: string, left: string, right: string, reason: Reason)

  /** A request; `hashKeys` are the keys of its credential hashes in order. */
  datatype ChannelRequest = ChannelRequest(channel: string, hashKeys: seq<string>, hashes: map<string, string>)

  /** The token keys of each channel definition; other channels have none. */
  type ChannelDefs = map<string, seq<string>>

  function TokenKeys(defs: ChannelDefs, channel: string): seq<string> {
    if channel in defs then defs[channel] else []
  }

  function Hash(hashes: map<string, string>, key: string): string {
    if key in hashes then hashes[key] else ""
  }

  predicate HasStoredChannel(entry: SandboxEntry, channel: string) {
    entry.messagingChannels.Some? && channel in entry.messagingChannels.value && channel !in entry.disabledChannels
  }

  // ----- The comparison of two sets of hashes -----

  predicate SomeMatch(keys: seq<string>, a: map<string, string>, b: map<string, string>) {
    exists k | k in keys :: Hash(a, k) != "" && Hash(a, k) == Hash(b, k)
  }

  predicate SomeUnknown(keys: seq<string>, a: map<string, string>, b: map<string, string>) {
    exists k | k in keys :: Hash(a, k) == "" || Hash(b, k) == ""
  }

  /** A shared hash is a match; otherwise one that cannot be compared leaves the pair unknown. */
  function Compare(keys: seq<string>, a: map<string, string>, b: map<string, string>): Option<Reason> {
    if SomeMatch(keys, a, b) then Some(MatchingToken)
    else if SomeUnknown(keys, a, b) then Some(UnknownToken)
    else None
  }

  function RequestReason(defs: ChannelDefs, entry: SandboxEntry, request: ChannelRequest): Option<Reason> {
    if !HasStoredChannel(entry, request.channel) then None
    else
      var tokenKeys := TokenKeys(defs, request.channel);
      var keys := if tokenKeys != [] then tokenKeys else request.hashKeys;
      if keys == [] then Some(UnknownToken) else Compare(keys, request.hashes, entry.hashes)
  }

  function PairReason(defs: ChannelDefs, channel: string, left: SandboxEntry, right: SandboxEntry): Option<Reason> {
    if !HasStoredChannel(left, channel) || !HasStoredChannel(right, channel) then None
    else if TokenKeys(defs, channel) == [] then Some(UnknownToken)
    else Compare(TokenKeys(defs, channel), left.hashes, right.hashes)
  }

  method ConflictReasonForRequest(defs: ChannelDefs, entry: SandboxEntry, request: ChannelRequest)
      returns (r: Option<Reason>)
    ensures r == RequestReason(defs, entry, request)
  {
    if !HasStoredChannel(entry, request.channel) {
      return None;
    }
    var tokenKeys := TokenKeys(defs, request.channel);
    var keys := if |tokenKeys| > 0 then tokenKeys else request.hashKeys;
    if |keys| == 0 {
      return Some(UnknownToken);
    }
    var sawUnknown := false;
    for i := 0 to |keys|
      invariant !SomeMatch(keys[..i], request.hashes, entry.hashes)
      invariant sawUnknown <==> SomeUnknown(keys[..i], request.hashes, entry.hashes)
    {
      assert keys[..i + 1] == keys[..i] + [keys[i]];
      var requested, stored := Hash(request.hashes, keys[i]), Hash(entry.hashes, keys[i]);
      if requested != "" && stored != "" {
        if requested == stored {
          assert keys[i] in keys;
          return Some(MatchingToken);
        }
        continue;
      }
      sawUnknown := true;
    }
    assert keys[..|keys|] == keys;
    return if sawUnknown then Some(UnknownToken) else None;
  }

  method ConflictReasonForPair(defs: ChannelDefs, channel: string, left: SandboxEntry, right: SandboxEntry)
      returns (r: Option<Reason>)
    ensures r == PairReason(defs, channel, left, right)
  {
    if !HasStoredChannel(left, channel) || !HasStoredChannel(right, channel) {
      return None;
    }
    var keys := TokenKeys(defs, channel);
    if |keys| == 0 {
      return Some(UnknownToken);
    }
    var sawUnknown := false;
    for i := 0 to |keys|
      invariant !SomeMatch(keys[..i], left.hashes, right.hashes)
      invariant sawUnknown <==> SomeUnknown(keys[..i], left.hashes, right.hashes)
    {
      assert keys[..i + 1] == keys[..i] + [keys[i]];
      var leftHash, rightHash := Hash(left.hashes, keys[i]), Hash(right.hashes, keys[i]);
      if leftHash != "" && rightHash != "" {
        if leftHash == rightHash {
          assert keys[i] in keys;
          return Some(MatchingToken);
        }
        continue;
      }
      sawUnknown := true;
    }
    assert keys[..|keys|] == keys;
    return if sawUnknown then Some(UnknownToken) else None;
  }

  lemma {:induction false} CompareSymmetric(keys: seq<string>, a: map<string, string>, b: map<string, string>)
    ensures Compare(keys, a, b) == Compare(keys, b, a)
  {
    if SomeMatch(keys, a, b) {
      var k :| k in keys && Hash(a, k) != "" && Hash(a, k) == Hash(b, k);
    }
    if SomeMatch(keys, b, a) {
      var k :| k in keys && Hash(b, k) != "" && Hash(b, k) == Hash(a, k);
    }
  }

  // ----- What the reasons mean, told from the entries and their hashes -----

  ghost predicate Uses(entry: SandboxEntry, channel: string) {
    entry.messagingChannels.Some? && channel in entry.messagingChannels.value && channel !in entry.disabledChannels
  }

  /** Some key has the same hash in both. */
  ghost predicate Shared(keys: seq<string>, a: map<string, string>, b: map<string, string>) {
    exists k | k in keys :: k in a && k in b && a[k] == b[k] && a[k] != ""
  }

  /** Every key has a hash in both, and another one in each; and there is a key. */
  ghost predicate Different(keys: seq<string>, a: map<string, string>, b: map<string, string>) {
    keys != [] && forall k | k in keys :: k in a && k in b && a[k] != "" && b[k] != "" && a[k] != b[k]
  }

  /** What two users of a channel with these keys are to be told. */
  ghost predicate Deserved(keys: seq<string>, a: map<string, string>, b: map<string, string>, reason: Reason) {
    match reason
    case MatchingToken => Shared(keys, a, b)
    case UnknownToken => !Shared(keys, a, b) && !Different(keys, a, b)
  }

  lemma {:induction false} CompareExact(keys: seq<string>, a: map<string, string>, b: map<string, string>)
    requires keys != []
    ensures forall reason :: Compare(keys, a, b) == Some(reason) <==> Deserved(keys, a, b, reason)
    ensures Compare(keys, a, b) == None <==> Different(keys, a, b)
  {
    if SomeMatch(keys, a, b) {
      var k :| k in keys && Hash(a, k) != "" && Hash(a, k) == Hash(b, k);
    } else if SomeUnknown(keys, a, b) {
      var k :| k in keys && (Hash(a, k) == "" || Hash(b, k) == "");
    }
    if Shared(keys, a, b) {
      var k :| k in keys && k in a && k in b && a[k] == b[k] && a[k] != "";
      assert Hash(a, k) != "" && Hash(a, k) == Hash(b, k);
    } else if !Different(keys, a, b) {
      var k :| k in keys && !(k in a && k in b && a[k] != "" && b[k] != "" && a[k] != b[k]);
      assert Hash(a, k) == "" || Hash(b, k) == "";
    }
  }

  /** Main result: the request detector answers exactly what is deserved, on the token keys of the channel
      or, without any, on the keys of the request, and nothing exactly for a sandbox that does not use the
      channel or has another hash under every key. */
  lemma {:induction false} RequestReasonExact(defs: ChannelDefs, entry: SandboxEntry, request: ChannelRequest)
    ensures
      var keys := if request.channel in defs && defs[request.channel] != [] then defs[request.channel]
                  else request.hashKeys;
      var r := RequestReason(defs, entry, request);
      && (forall reason ::
            r == Some(reason) <==> Uses(entry, request.channel) && Deserved(keys, request.hashes, entry.hashes, reason))
      && (r == None <==> !Uses(entry, request.channel) || Different(keys, request.hashes, entry.hashes))
  {
    var keys := if request.channel in defs && defs[request.channel] != [] then defs[request.channel]
                else request.hashKeys;
    if keys != [] {
      CompareExact(keys, request.hashes, entry.hashes);
    }
  }

  /** ... and the pair detector on the token keys of the channel. */
  lemma {:induction false} PairReasonExact(defs: ChannelDefs, channel: string, left: SandboxEntry, right: SandboxEntry)
    ensures
      var keys := if channel in defs then defs[channel] else [];
      var r := PairReason(defs, channel, left, right);
      && (forall reason :: r == Some(reason) <==>
            Uses(left, channel) && Uses(right, channel) && Deserved(keys, left.hashes, right.hashes, reason))
      && (r == None <==> !Uses(left, channel) || !Uses(right, channel) || Different(keys, left.hashes, right.hashes))
  {
    var keys := if channel in defs then defs[channel] else [];
    if keys != [] {
      CompareExact(keys, left.hashes, right.hashes);
    }
  }

  // ----- One sandbox's requests -----

  /** The conflicts of one request with the entries from the `i`-th on. */
  function ConflictsFrom(
      defs: ChannelDefs, current: Option<string>, request: ChannelRequest, sandboxes: seq<SandboxEntry>): seq<Conflict>
  {
    if sandboxes == [] then []
    else
      var s := sandboxes[0];
      var reason := RequestReason(defs, s, request);
      (if Some(s.name) != current && s.messagingChannels.Some? && reason.Some?
       then [Conflict(request.channel, s.name, reason.value)] else [])
      + ConflictsFrom(defs, current, request, sandboxes[1..])
  }

  /** findChannelConflicts for requests with a channel name. */
  function FindChannelConflicts(
      defs: ChannelDefs, current: Option<string>, requests: seq<ChannelRequest>, sandboxes: seq<SandboxEntry>)
      : seq<Conflict>
  {
    if requests == [] then []
    else (if requests[0].channel == "" then [] else ConflictsFrom(defs, current, requests[0], sandboxes))
         + FindChannelConflicts(defs, current, requests[1..], sandboxes)
  }

  // ----- All pairs -----

  /** The members of each channel in the order in which the channels were first seen: a `Map` from
      channel to entries. */
  datatype Group = Group(channel: string, members: seq<SandboxEntry>)

  /** The position of the group of a channel, or the number of groups. */
  function GroupIndex(groups: seq<Group>, channel: string): (k: nat)
    ensures k <= |groups|
    ensures k < |groups| ==> groups[k].channel == channel
    ensures forall j | 0 <= j < k :: groups[j].channel != channel
  {
    if groups == [] || groups[0].channel == channel then 0 else 1 + GroupIndex(groups[1..], channel)
  }

  function AddMember(groups: seq<Group>, channel: string, entry: SandboxEntry): seq<Group> {
    var k := GroupIndex(groups, channel);
    if k == |groups| then groups + [Group(channel, [entry])]
    else groups[k := Group(channel, groups[k].members + [entry])]
  }

  /** The first `i` channels of an entry. */
  function AddChannels(groups: seq<Group>, entry: SandboxEntry, channels: seq<string>, i: nat): seq<Group>
    requires i <= |channels|
  {
    if i == 0 then groups
    else
      var before := AddChannels(groups, entry, channels, i - 1);
      if channels[i - 1] in entry.disabledChannels then before else AddMember(before, channels[i - 1], entry)
  }

  function ByChannel(sandboxes: seq<SandboxEntry>, n: nat): seq<Group>
    requires n <= |sandboxes|
  {
    if n == 0 then []
    else
      var before := ByChannel(sandboxes, n - 1);
      var entry := sandboxes[n - 1];
      if entry.messagingChannels.None? then before
      else AddChannels(before, entry, entry.messagingChannels.value, |entry.messagingChannels.value|)
  }

  /** The overlaps of one member with those from the `j`-th on ... */
  function OverlapsOfOne(defs: ChannelDefs, g: Group, i: nat, j: nat): seq<Overlap>
    requires i < j <= |g.members|
    decreases j
  {
    if j == i + 1 then []
    else OverlapsOfOne(defs, g, i, j - 1) + PairOverlap(defs, g.channel, g.members[i], g.members[j - 1])
  }

  function PairOverlap(defs: ChannelDefs, channel: string, left: SandboxEntry, right: SandboxEntry): seq<Overlap> {
    var reason := PairReason(defs, channel, left, right);
    if reason.Some? then [Overlap(channel, left.name, right.name, reason.value)] else []
  }

  /** ... of the first `i` members of a group with all later ones ... */
  function OverlapsOfGroup(defs: ChannelDefs, g: Group, i: nat): seq<Overlap>
    requires i <= |g.members|
  {
    if i == 0 then [] else OverlapsOfGroup(defs, g, i - 1) + OverlapsOfOne(defs, g, i - 1, |g.members|)
  }

  /** ... and of the first `k` groups. */
  function OverlapsOf(defs: ChannelDefs, groups: seq<Group>, k: nat): seq<Overlap>
    requires k <= |groups|
  {
    if k == 0 then []
    else OverlapsOf(defs, groups, k - 1) + OverlapsOfGroup(defs, groups[k - 1], |groups[k - 1].members|)
  }

  function Grouped(sandboxes: seq<SandboxEntry>): seq<Group> {
    ByChannel(sandboxes, |sandboxes|)
  }

  function AllOverlaps(defs: ChannelDefs, sandboxes: seq<SandboxEntry>): seq<Overlap> {
    var groups := Grouped(sandboxes);
    OverlapsOf(defs, groups, |groups|)
  }

  /** The first half of findAllOverlaps. */
  method GroupByChannel(sandboxes: seq<SandboxEntry>) returns (byChannel: seq<Group>)
    ensures byChannel == Grouped(sandboxes)
  {
    byChannel := [];
    for n := 0 to |sandboxes|
      invariant byChannel == ByChannel(sandboxes, n)
    {
      var entry := sandboxes[n];
      if entry.messagingChannels.None? {
        continue;
      }
      var channels := entry.messagingChannels.value;
      ghost var before := byChannel;
      for i := 0 to |channels|
        invariant byChannel == AddChannels(before, entry, channels, i)
      {
        if channels[i] in entry.disabledChannels {
          continue;
        }
        byChannel := AddMember(byChannel, channels[i], entry);
      }
    }
  }

  /** The inner loop over the pairs of one group. */
  method RowOverlaps(defs: ChannelDefs, group: Group, i: nat) returns (overlaps: seq<Overlap>)
    requires i < |group.members|
    ensures overlaps == OverlapsOfOne(defs, group, i, |group.members|)
  {
    overlaps := [];
    for j := i + 1 to |group.members|
      invariant overlaps == OverlapsOfOne(defs, group, i, j)
    {
      var reason := ConflictReasonForPair(defs, group.channel, group.members[i], group.members[j]);
      if reason.Some? {
        overlaps := overlaps + [Overlap(group.channel, group.members[i].name, group.members[j].name, reason.value)];
      }
    }
  }

  method GroupOverlaps(defs: ChannelDefs, group: Group) returns (overlaps: seq<Overlap>)
    ensures overlaps == OverlapsOfGroup(defs, group, |group.members|)
  {
    overlaps := [];
    for i := 0 to |group.members|
      invariant overlaps == OverlapsOfGroup(defs, group, i)
    {
      var row := RowOverlaps(defs, group, i);
      overlaps := overlaps + row;
    }
  }

  method FindAllOverlaps(defs: ChannelDefs, sandboxes: seq<SandboxEntry>) returns (overlaps: seq<Overlap>)
    ensures overlaps == AllOverlaps(defs, sandboxes)
  {
    var byChannel := GroupByChannel(sandboxes);
    overlaps := [];
    for k := 0 to |byChannel|
      invariant overlaps == OverlapsOf(defs, byChannel, k)
    {
      if |byChannel[k].members| < 2 {
        SmallGroup(defs, byChannel[k]);
        continue;
      }
      var more := GroupOverlaps(defs, byChannel[k]);
      overlaps := overlaps + more;
    }
  }

  lemma {:induction false} SmallGroup(defs: ChannelDefs, g: Group)
    requires |g.members| < 2
    ensures OverlapsOfGroup(defs, g, |g.members|) == []
  {
  }

  // ----- The two detectors agree -----

  ghost predicate UniqueNames(sandboxes: seq<SandboxEntry>) {
    forall i, j | 0 <= i < j < |sandboxes| :: sandboxes[i].name != sandboxes[j].name
  }

  ghost predicate NoRepeats(entry: SandboxEntry) {
    entry.messagingChannels.Some? ==>
      var cs := entry.messagingChannels.value; forall i, j | 0 <= i < j < |cs| :: cs[i] != cs[j]
  }

  /** The entries, among the first `n`, that have the channel in use. */
  ghost function Holders(sandboxes: seq<SandboxEntry>, n: nat, channel: string): seq<SandboxEntry>
    requires n <= |sandboxes|
  {
    if n == 0 then []
    else Holders(sandboxes, n - 1, channel)
         + (if HasStoredChannel(sandboxes[n - 1], channel) then [sandboxes[n - 1]] else [])
  }

  ghost predicate DistinctGroups(groups: seq<Group>) {
    forall i, j | 0 <= i < j < |groups| :: groups[i].channel != groups[j].channel
  }

  ghost function Members(groups: seq<Group>, channel: string): seq<SandboxEntry> {
    var k := GroupIndex(groups, channel);
    if k == |groups| then [] else groups[k].members
  }

  lemma {:induction false} GroupIndexUnique(groups: seq<Group>, channel: string, k: nat)
    requires DistinctGroups(groups) && k < |groups| && groups[k].channel == channel
    ensures GroupIndex(groups, channel) == k
  {
  }

  lemma {:induction false} AddMemberMembers(groups: seq<Group>, channel: string, entry: SandboxEntry, c: string)
    requires DistinctGroups(groups)
    ensures DistinctGroups(AddMember(groups, channel, entry))
    ensures Members(AddMember(groups, channel, entry), c) == Members(groups, c) + if c == channel then [entry] else []
  {
    var k := GroupIndex(groups, channel);
    var r := AddMember(groups, channel, entry);
    var j := GroupIndex(groups, c);
    hide GroupIndex;
    if c == channel {
      GroupIndexUnique(r, c, k);
    } else if j < |groups| {
      GroupIndexUnique(r, c, j);
    }
  }

  lemma {:induction false} AddChannelsMembers(
      groups: seq<Group>, entry: SandboxEntry, channels: seq<string>, i: nat, c: string)
    requires DistinctGroups(groups) && i <= |channels|
    requires forall a, b | 0 <= a < b < |channels| :: channels[a] != channels[b]
    ensures DistinctGroups(AddChannels(groups, entry, channels, i))
    ensures Members(AddChannels(groups, entry, channels, i), c)
         == Members(groups, c) + if c in channels[..i] && c !in entry.disabledChannels then [entry] else []
  {
    if i > 0 {
      AddChannelsMembers(groups, entry, channels, i - 1, c);
      assert c in channels[..i] <==> c in channels[..i - 1] || c == channels[i - 1];
      assert c == channels[i - 1] ==> c !in channels[..i - 1];
      if channels[i - 1] !in entry.disabledChannels {
        AddMemberMembers(AddChannels(groups, entry, channels, i - 1), channels[i - 1], entry, c);
      }
    }
  }

  /** The group of a channel holds the entries that use it, in registry order. */
  lemma {:induction false} ByChannelHolders(sandboxes: seq<SandboxEntry>, n: nat, c: string)
    requires n <= |sandboxes| && forall e | e in sandboxes :: NoRepeats(e)
    ensures DistinctGroups(ByChannel(sandboxes, n))
    ensures Members(ByChannel(sandboxes, n), c) == Holders(sandboxes, n, c)
  {
    if n > 0 {
      ByChannelHolders(sandboxes, n - 1, c);
      var e := sandboxes[n - 1];
      if e.messagingChannels.Some? {
        assert NoRepeats(e);
        var cs := e.messagingChannels.value;
        AddChannelsMembers(ByChannel(sandboxes, n - 1), e, cs, |cs|, c);
        assert cs[..|cs|] == cs;
      }
    }
  }

  lemma {:induction false} HoldersAreEntries(sandboxes: seq<SandboxEntry>, n: nat, c: string)
    requires n <= |sandboxes|
    ensures forall e :: e in Holders(sandboxes, n, c) <==> e in sandboxes[..n] && HasStoredChannel(e, c)
  {
    if n > 0 {
      HoldersAreEntries(sandboxes, n - 1, c);
      assert sandboxes[..n] == sandboxes[..n - 1] + [sandboxes[n - 1]];
    }
  }

  lemma {:induction false} HoldersUnique(sandboxes: seq<SandboxEntry>, n: nat, c: string)
    requires n <= |sandboxes| && UniqueNames(sandboxes)
    ensures UniqueNames(Holders(sandboxes, n, c))
  {
    if n > 0 {
      HoldersUnique(sandboxes, n - 1, c);
      HoldersAreEntries(sandboxes, n - 1, c);
      var hs := Holders(sandboxes, n - 1, c);
      forall i | 0 <= i < |hs| ensures hs[i].name != sandboxes[n - 1].name {
        assert hs[i] in hs;
      }
    }
  }

  // ----- Counting reports -----

  /** How often an overlap is among the first `n` reports. */
  ghost function CountTo(o: Overlap, os: seq<Overlap>, n: nat): nat
    requires n <= |os|
  {
    if n == 0 then 0 else CountTo(o, os, n - 1) + (if os[n - 1] == o then 1 else 0)
  }

  ghost function Count(o: Overlap, os: seq<Overlap>): nat {
    CountTo(o, os, |os|)
  }

  lemma {:induction false} CountToConcat(o: Overlap, a: seq<Overlap>, b: seq<Overlap>, n: nat)
    requires n <= |a| + |b|
    ensures CountTo(o, a + b, n) == if n <= |a| then CountTo(o, a, n) else CountTo(o, a, |a|) + CountTo(o, b, n - |a|)
  {
    if n > 0 {
      CountToConcat(o, a, b, n - 1);
    }
  }

  lemma {:induction false} CountConcat(o: Overlap, a: seq<Overlap>, b: seq<Overlap>)
    ensures Count(o, a + b) == Count(o, a) + Count(o, b)
  {
    CountToConcat(o, a, b, |a| + |b|);
  }

  /** How often the pair of positions `i`, `j` makes the report `o`, and a row of such pairs. */
  ghost function HitOf(defs: ChannelDefs, g: Group, i: nat, j: nat, o: Overlap): nat
    requires i < |g.members| && j < |g.members|
  {
    if PairReason(defs, g.channel, g.members[i], g.members[j]) == Some(o.reason)
       && o.channel == g.channel && o.left == g.members[i].name && o.right == g.members[j].name
    then 1 else 0
  }

  ghost function RowCount(defs: ChannelDefs, g: Group, i: nat, j: nat, o: Overlap): nat
    requires i < j <= |g.members|
    decreases j
  {
    if j == i + 1 then 0 else RowCount(defs, g, i, j - 1, o) + HitOf(defs, g, i, j - 1, o)
  }

  lemma {:induction false} CountHit(defs: ChannelDefs, g: Group, i: nat, j: nat, o: Overlap)
    requires i < |g.members| && j < |g.members|
    ensures Count(o, PairOverlap(defs, g.channel, g.members[i], g.members[j])) == HitOf(defs, g, i, j, o)
  {
    var os := PairOverlap(defs, g.channel, g.members[i], g.members[j]);
    assert Count(o, os) == if os == [] then 0 else CountTo(o, os, 0) + (if os[0] == o then 1 else 0);
  }

  lemma {:induction false} CountRow(defs: ChannelDefs, g: Group, i: nat, j: nat, o: Overlap)
    requires i < j <= |g.members|
    ensures Count(o, OverlapsOfOne(defs, g, i, j)) == RowCount(defs, g, i, j, o)
    decreases j
  {
    if j > i + 1 {
      CountRow(defs, g, i, j - 1, o);
      CountHit(defs, g, i, j - 1, o);
      CountConcat(o, OverlapsOfOne(defs, g, i, j - 1), PairOverlap(defs, g.channel, g.members[i], g.members[j - 1]));
    }
  }

  lemma {:induction false} GroupGrows(defs: ChannelDefs, g: Group, i: nat, o: Overlap)
    requires i < |g.members|
    ensures Count(o, OverlapsOfGroup(defs, g, i + 1))
         == Count(o, OverlapsOfGroup(defs, g, i)) + RowCount(defs, g, i, |g.members|, o)
  {
    var front, row := OverlapsOfGroup(defs, g, i), OverlapsOfOne(defs, g, i, |g.members|);
    assert OverlapsOfGroup(defs, g, i + 1) == front + row;
    CountConcat(o, front, row);
    CountRow(defs, g, i, |g.members|, o);
  }

  /** The member at position `p` is the only one of its name. */
  ghost predicate OnlyAt(g: Group, p: nat)
    requires p < |g.members|
  {
    forall j | 0 <= j < |g.members| && g.members[j].name == g.members[p].name :: j == p
  }

  /** A report on the members at positions `p` and `q` is counted in row `p`, once. */
  lemma {:induction false} RowCountAt(defs: ChannelDefs, g: Group, i: nat, j: nat, p: nat, q: nat, o: Overlap)
    requires i < j <= |g.members| && p < |g.members| && q < |g.members| && OnlyAt(g, p) && OnlyAt(g, q)
    requires o.left == g.members[p].name && o.right == g.members[q].name
    ensures RowCount(defs, g, i, j, o) == if i == p && p < q < j then HitOf(defs, g, p, q, o) else 0
    decreases j
  {
    if j > i + 1 {
      RowCountAt(defs, g, i, j - 1, p, q, o);
    }
  }

  lemma {:induction false} NoReports(defs: ChannelDefs, g: Group, o: Overlap)
    ensures Count(o, OverlapsOfGroup(defs, g, 0)) == 0
  {
  }

  lemma {:induction false} GroupCountAt(defs: ChannelDefs, g: Group, i: nat, p: nat, q: nat, o: Overlap)
    requires i <= |g.members| && p < |g.members| && q < |g.members| && OnlyAt(g, p) && OnlyAt(g, q)
    requires o.left == g.members[p].name && o.right == g.members[q].name
    ensures Count(o, OverlapsOfGroup(defs, g, i)) == if p < i && p < q then HitOf(defs, g, p, q, o) else 0
  {
    NoReports(defs, g, o);
    hide HitOf, OverlapsOfGroup, Count, RowCount;
    if i > 0 {
      GroupCountAt(defs, g, i - 1, p, q, o);
      GroupGrows(defs, g, i - 1, o);
      RowCountAt(defs, g, i - 1, |g.members|, p, q, o);
    }
  }

  /** No report of a group names another channel or a sandbox that is not a member. */
  ghost predicate Foreign(g: Group, o: Overlap) {
    || o.channel != g.channel
    || (forall m | m in g.members :: m.name != o.left)
    || (forall m | m in g.members :: m.name != o.right)
  }

  lemma {:induction false} ForeignRow(defs: ChannelDefs, g: Group, i: nat, j: nat, o: Overlap)
    requires i < j <= |g.members| && Foreign(g, o)
    ensures RowCount(defs, g, i, j, o) == 0
    decreases j
  {
    if j > i + 1 {
      ForeignRow(defs, g, i, j - 1, o);
      assert g.members[i] in g.members && g.members[j - 1] in g.members;
    }
  }

  lemma {:induction false} ForeignGroup(defs: ChannelDefs, g: Group, i: nat, o: Overlap)
    requires i <= |g.members| && Foreign(g, o)
    ensures Count(o, OverlapsOfGroup(defs, g, i)) == 0
  {
    if i == 0 {
      assert OverlapsOfGroup(defs, g, i) == [];
    } else {
      ForeignGroup(defs, g, i - 1, o);
      GroupGrows(defs, g, i - 1, o);
      ForeignRow(defs, g, i - 1, |g.members|, o);
    }
  }

  lemma {:induction false} GroupsGrow(defs: ChannelDefs, groups: seq<Group>, k: nat, o: Overlap)
    requires k < |groups|
    ensures Count(o, OverlapsOf(defs, groups, k + 1))
         == Count(o, OverlapsOf(defs, groups, k)) + Count(o, OverlapsOfGroup(defs, groups[k], |groups[k].members|))
  {
    CountConcat(o, OverlapsOf(defs, groups, k), OverlapsOfGroup(defs, groups[k], |groups[k].members|));
  }

  lemma {:induction false} NoGroups(defs: ChannelDefs, groups: seq<Group>, o: Overlap)
    ensures Count(o, OverlapsOf(defs, groups, 0)) == 0
  {
  }

  lemma {:induction false} CountGroups(defs: ChannelDefs, groups: seq<Group>, k: nat, o: Overlap)
    requires k <= |groups| && DistinctGroups(groups)
    ensures Count(o, OverlapsOf(defs, groups, k)) ==
      var at := GroupIndex(groups, o.channel);
      if at < k then Count(o, OverlapsOfGroup(defs, groups[at], |groups[at].members|)) else 0
  {
    NoGroups(defs, groups, o);
    hide OverlapsOf, OverlapsOfGroup, Count, GroupIndex;
    if k > 0 {
      var g := groups[k - 1];
      GroupsGrow(defs, groups, k - 1, o);
      CountGroups(defs, groups, k - 1, o);
      if g.channel == o.channel {
        GroupIndexUnique(groups, o.channel, k - 1);
      } else {
        ForeignGroup(defs, g, |g.members|, o);
      }
    }
  }

  /** All reports on a channel are those on the pairs of its holders. */
  lemma {:induction false} CountAll(defs: ChannelDefs, sandboxes: seq<SandboxEntry>, o: Overlap)
    requires forall e | e in sandboxes :: NoRepeats(e)
    ensures Count(o, AllOverlaps(defs, sandboxes)) ==
      var g := Group(o.channel, Holders(sandboxes, |sandboxes|, o.channel));
      Count(o, OverlapsOfGroup(defs, g, |g.members|))
  {
    var groups := ByChannel(sandboxes, |sandboxes|);
    ByChannelHolders(sandboxes, |sandboxes|, o.channel);
    CountGroups(defs, groups, |groups|, o);
    var at := GroupIndex(groups, o.channel);
    if at < |groups| {
      assert groups[at] == Group(o.channel, Holders(sandboxes, |sandboxes|, o.channel));
    }
  }

  lemma {:induction false} PairSymmetric(defs: ChannelDefs, channel: string, a: SandboxEntry, b: SandboxEntry)
    ensures PairReason(defs, channel, a, b) == PairReason(defs, channel, b, a)
  {
    CompareSymmetric(TokenKeys(defs, channel), a.hashes, b.hashes);
  }

  /** The overlap reports for two entries, in either order. */
  lemma {:induction false} PairCount(
      defs: ChannelDefs, sandboxes: seq<SandboxEntry>, channel: string, a: SandboxEntry, b: SandboxEntry,
      reason: Reason)
    requires UniqueNames(sandboxes) && forall e | e in sandboxes :: NoRepeats(e)
    requires a in sandboxes && b in sandboxes && a.name != b.name
    ensures Count(Overlap(channel, a.name, b.name, reason), AllOverlaps(defs, sandboxes))
          + Count(Overlap(channel, b.name, a.name, reason), AllOverlaps(defs, sandboxes))
         == if PairReason(defs, channel, a, b) == Some(reason) then 1 else 0
  {
    var g := Group(channel, Holders(sandboxes, |sandboxes|, channel));
    CountAll(defs, sandboxes, Overlap(channel, a.name, b.name, reason));
    CountAll(defs, sandboxes, Overlap(channel, b.name, a.name, reason));
    HoldersAreEntries(sandboxes, |sandboxes|, channel);
    assert sandboxes[..|sandboxes|] == sandboxes;
    if HasStoredChannel(a, channel) && HasStoredChannel(b, channel) {
      HoldersUnique(sandboxes, |sandboxes|, channel);
      HolderPairCount(defs, g, a, b, reason);
    } else {
      AbsentForeign(sandboxes, g, a, b, reason);
      ForeignGroup(defs, g, |g.members|, Overlap(channel, a.name, b.name, reason));
      ForeignGroup(defs, g, |g.members|, Overlap(channel, b.name, a.name, reason));
    }
  }

  lemma {:induction false} HolderPairCount(
      defs: ChannelDefs, g: Group, a: SandboxEntry, b: SandboxEntry, reason: Reason)
    requires a in g.members && b in g.members && a.name != b.name && UniqueNames(g.members)
    ensures Count(Overlap(g.channel, a.name, b.name, reason), OverlapsOfGroup(defs, g, |g.members|))
          + Count(Overlap(g.channel, b.name, a.name, reason), OverlapsOfGroup(defs, g, |g.members|))
         == if PairReason(defs, g.channel, a, b) == Some(reason) then 1 else 0
  {
    var p :| 0 <= p < |g.members| && g.members[p] == a;
    var q :| 0 <= q < |g.members| && g.members[q] == b;
    PairSymmetric(defs, g.channel, a, b);
    GroupCountAt(defs, g, |g.members|, p, q, Overlap(g.channel, a.name, b.name, reason));
    GroupCountAt(defs, g, |g.members|, q, p, Overlap(g.channel, b.name, a.name, reason));
  }

  lemma {:induction false} AbsentForeign(
      sandboxes: seq<SandboxEntry>, g: Group, a: SandboxEntry, b: SandboxEntry, reason: Reason)
    requires UniqueNames(sandboxes) && a in sandboxes && b in sandboxes
    requires forall e :: e in g.members <==> e in sandboxes && HasStoredChannel(e, g.channel)
    requires !HasStoredChannel(a, g.channel) || !HasStoredChannel(b, g.channel)
    ensures Foreign(g, Overlap(g.channel, a.name, b.name, reason))
      && Foreign(g, Overlap(g.channel, b.name, a.name, reason))
  {
    var absent := if HasStoredChannel(a, g.channel) then b else a;
    forall m | m in g.members ensures m.name != absent.name {
      if m.name == absent.name { NamedEntry(sandboxes, m, absent); }
    }
  }

  lemma {:induction false} NamedEntry(sandboxes: seq<SandboxEntry>, a: SandboxEntry, b: SandboxEntry)
    requires UniqueNames(sandboxes) && a in sandboxes && b in sandboxes && a.name == b.name
    ensures a == b
  {
  }

  lemma {:induction false} ConflictsOfRequest(
      defs: ChannelDefs, current: Option<string>, request: ChannelRequest, sandboxes: seq<SandboxEntry>, c: Conflict)
    ensures c in ConflictsFrom(defs, current, request, sandboxes) <==>
      exists s | s in sandboxes ::
        Some(s.name) != current && RequestReason(defs, s, request).Some?
        && c == Conflict(request.channel, s.name, RequestReason(defs, s, request).value)
  {
    if sandboxes != [] {
      ConflictsOfRequest(defs, current, request, sandboxes[1..], c);
      assert sandboxes == [sandboxes[0]] + sandboxes[1..];
    }
  }

  /** The conflicts found for some requests. */
  lemma {:induction false} ConflictsOfRequests(
      defs: ChannelDefs, current: Option<string>, requests: seq<ChannelRequest>, sandboxes: seq<SandboxEntry>,
      c: Conflict)
    ensures c in FindChannelConflicts(defs, current, requests, sandboxes) <==>
      exists request, s | request in requests && s in sandboxes ::
        && request.channel != "" && Some(s.name) != current
        && RequestReason(defs, s, request) == Some(c.reason) && c.channel == request.channel && c.sandbox == s.name
  {
    if requests != [] {
      var request := requests[0];
      assert requests == [request] + requests[1..];
      ConflictsOfRequests(defs, current, requests[1..], sandboxes, c);
      ConflictsOfRequest(defs, current, request, sandboxes, c);
    }
  }

  /** Main result: for a sandbox `a` that uses a channel with token keys, the pair of `a` and any
      other sandbox is reported as an overlap exactly once, with a given reason, if and only if the
      conflict search run for `a` with its own hashes reports the other sandbox with that reason; and
      both do so exactly when the other uses the channel too and the pair deserves the reason. */
  lemma {:induction false} DetectorsAgree(
      defs: ChannelDefs, sandboxes: seq<SandboxEntry>, channel: string, hashKeys: seq<string>,
      a: SandboxEntry, b: SandboxEntry, reason: Reason)
    requires UniqueNames(sandboxes) && forall e | e in sandboxes :: NoRepeats(e)
    requires a in sandboxes && b in sandboxes && a.name != b.name
    requires channel != "" && TokenKeys(defs, channel) != [] && HasStoredChannel(a, channel)
    ensures
      var overlaps := AllOverlaps(defs, sandboxes);
      var request := ChannelRequest(channel, hashKeys, a.hashes);
      Count(Overlap(channel, a.name, b.name, reason), overlaps)
      + Count(Overlap(channel, b.name, a.name, reason), overlaps)
      == if Conflict(channel, b.name, reason) in FindChannelConflicts(defs, Some(a.name), [request], sandboxes)
         then 1 else 0
    ensures Conflict(channel, b.name, reason)
          in FindChannelConflicts(defs, Some(a.name), [ChannelRequest(channel, hashKeys, a.hashes)], sandboxes)
       <==> Uses(b, channel) && Deserved(defs[channel], a.hashes, b.hashes, reason)
  {
    PairReasonExact(defs, channel, a, b);
    var request := ChannelRequest(channel, hashKeys, a.hashes);
    var c := Conflict(channel, b.name, reason);
    PairCount(defs, sandboxes, channel, a, b, reason);
    ConflictsOfRequest(defs, Some(a.name), request, sandboxes, c);
    assert FindChannelConflicts(defs, Some(a.name), [request], sandboxes)
        == ConflictsFrom(defs, Some(a.name), request, sandboxes) + [];
    if c in ConflictsFrom(defs, Some(a.name), request, sandboxes) {
      var s :| s in sandboxes && RequestReason(defs, s, request).Some?
        && c == Conflict(channel, s.name, RequestReason(defs, s, request).value);
      NamedEntry(sandboxes, s, b);
    }
  }

  /** Without token keys the pair detector always answers "unknown"; the request detector then does so
      too if and only if the request has no hashes, or none is shared and one cannot be compared. */
  lemma {:induction false} WithoutTokenKeys(
      defs: ChannelDefs, channel: string, hashKeys: seq<string>, a: SandboxEntry, b: SandboxEntry)
    requires TokenKeys(defs, channel) == [] && HasStoredChannel(a, channel) && HasStoredChannel(b, channel)
    ensures PairReason(defs, channel, a, b) == RequestReason(defs, b, ChannelRequest(channel, hashKeys, a.hashes))
       <==> !Shared(hashKeys, a.hashes, b.hashes) && !Different(hashKeys, a.hashes, b.hashes)
  {
    RequestReasonExact(defs, b, ChannelRequest(channel, hashKeys, a.hashes));
    PairReasonExact(defs, channel, a, b);
  }
}
