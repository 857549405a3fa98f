# Models and proofs

Dafny models of the stateful and recursive parts of NemoClaw, with proofs of what those parts are
for. `dafny verify dfyconfig.toml` checks everything. Each module follows one source file or
one component of it:

- **WeakTypes** and **Attribution**: `scripts/type-safety-hotspots.ts`. The search for a weak type
  through a possibly cyclic graph of aliases is exact, and returns exactly when it should; the two ways of
  charging a finding to a function, by the stack of the walk and by the smallest interval, agree, and
  nothing is lost or charged twice.
- **Broker** and **BrokerProtocol**: `agents/hermes/host/tool-gateway-broker.ts` and the registration in
  `src/lib/hermes-tool-gateway-broker.ts`. The code between two `await`s is a function on the shared state, and a
  method that changes that state in place; requests, timer ticks and registrations are events
  that interleave at the `await`s, each thread with its own, possibly stale, loaded copy. The portal,
  the provider updates and the clock are chosen freely by the events.
- **Yaml**: `agents/hermes/config/yaml.ts`. The printer, a reader for block mappings and sequences,
  double-quoted and plain scalars (sections 8.2.1, 8.2.2, 7.3.1 and 7.3.3 of YAML 1.2.2) that resolves plain
  scalars, keys included, by the core schema of section 10.3.2, and the round trip.
- **Taint**: `scripts/find-source-shape-tests.ts`. The repeat-until-unchanged loops compute least closed sets, which
  grow with the production paths.
- **Trace**: `src/lib/trace.ts`. The span collector and `withTraceSpan`.
- **Conflicts**: `src/lib/messaging-conflict.ts`. Two separately written detectors agree.
- **Recovery**: `src/lib/registry-recovery-action.ts`. Three sources are merged into the registry.
- **Headings**, **HeadingAnchors** and **SkillOverflow**: `scripts/docs-to-skills.py`. Heading levels, the empty line
  between an anchor and a heading, with the regular expression that finds the two, and the text that moves from SKILL.md
  to generated reference files.
- **StaleDist**: `src/lib/stale-dist-check.ts`; **DeviceCode**: `src/lib/oauth-device-code.ts` (RFC 8628, section 3.5).
- **Text** and **Wrappers**: small functions and datatypes that several modules use.

Where a method changes state in place, it is proved equal to a function on states, and the main results
are about that function; or, in Taint and SkillOverflow, its contract and the invariant it keeps say what the
state holds.

## Where the code does less than one might expect

Each of these is stated with a concrete run, or with the exact condition under which the code does what
is expected:

- `type A = Record<string, A>` makes the weak-type search recurse without end, because a record value is searched
  with an empty path set, unless a weak type stands to the left of it (`WeakTypes.RecordCycleDiverges`,
  `WeakTypes.OrderMatters`); `WeakTypes.SearchReturnsExact` says when it returns.
- A refresh that succeeds without a new token puts the caller's token back into the environment, even if another
  request has rotated it since (`BrokerProtocol.HonouredSpentTokenBreaks`); a key write spreads the loaded copy,
  even if it is stale (`BrokerProtocol.StaleKeyWriteBreaks`). `BrokerProtocol.AgreementExact` and
  `BrokerProtocol.ScheduleExact` say when neither happens.
- When the portal rotates a token and the provider update fails, file, provider and environment go on agreeing on
  the spent token (`BrokerProtocol.FailedUpdateLosesToken`); `BrokerProtocol.SpentRun` says that nothing else does that.
- The YAML printer drops null items, turns a list inside a list into an object keyed by index, and prints
  strings such as `true` or `12` unquoted, as values and as keys (`Yaml.RoundTrip`, `Yaml.ReadPrinted`,
  `Yaml.KeysLost`). It does not quote the string `- a` either, nor one with a carriage return inside, and the text
  `k: - a` is no YAML (`Yaml.TextsLost`).
- A recovery that writes a sandbox from a confirmed session erases its agent (`Recovery.AgentKeptExact`).
- On channels without token keys the two conflict detectors may differ (`Conflicts.WithoutTokenKeys`).
- The size check of SKILL.md does not count the newline that joins the text to the file
  (`SkillOverflow.AdmittedSize`); headings and pointers are not checked at all.
- Normalising headings is not idempotent on a text that has headings and an anchor within the id of another, across
  a line break (`HeadingAnchors.SecondRunChanges`); on every other text it is (`HeadingAnchors.NormalizedTextTwice`).

## Model

| member | source | states |
|---|---|---|
| `WeakTypes.SearchExactFrom` | scripts/type-safety-hotspots.ts:543-644 | whenever the search answers, from whatever path set, it answers true exactly when a weak type is reachable, where an alias of the path set is not followed outside record values |
| `WeakTypes.SearchExact` | scripts/type-safety-hotspots.ts:543-644 | so from an empty path set it answers true exactly when a weak type is reachable by rules that name no path set and say, constructor by constructor, what is weak and which parts count: one of the three keywords or the empty literal; parameters or result of a signature, any of the four parts of a conditional, either of an indexed access, signature members only, nothing of a predicate; for every type and every alias map, cyclic ones included |
| `WeakTypes.SearchSound` | scripts/type-safety-hotspots.ts:569-626 | an answer true from any path set comes with a derivation of a weak type that avoids the set |
| `WeakTypes.SearchComplete` | scripts/type-safety-hotspots.ts:543-567 | along a derivation shorter than that of every alias added to the path, the larger path set never cuts off the weak type (the minimal-derivation argument) |
| `WeakTypes.DerivesByParts` | scripts/type-safety-hotspots.ts:459-644 | one step of those rules is one step into the node itself, the parts that the search inspects, or the alias |
| `WeakTypes.SearchTerminates` | scripts/type-safety-hotspots.ts:543-644 | if no alias cycle within reach passes through the value of a `Record<string, _>`, the search returns, with the right answer |
| `WeakTypes.SearchReturnsExact` | scripts/type-safety-hotspots.ts:543-644 | for every type and every alias map, the search returns if and only if none of its calls leads back to itself; which calls there are is told from the aliases, the path set and the parts in their order in the source text, a part counting only if no weak type is reachable from those before it |
| `WeakTypes.SearchReturnsIff` | scripts/type-safety-hotspots.ts:628-644 | in particular, for a type from which no weak type is reachable, it returns if and only if no alias cycle within reach passes through a record value |
| `WeakTypes.OrderMatters` | scripts/type-safety-hotspots.ts:450-456 | for `type A = Record<string, A>`, the search of the union of `any` and `A`, in that order, returns, and that of `A` and `any` does not |
| `WeakTypes.CallAnswers` | scripts/type-safety-hotspots.ts:543-626 | a call that answers has had an answer from every call it made |
| `WeakTypes.CircleNeverAnswers` | scripts/type-safety-hotspots.ts:628-644 | a call that leads back to itself never answers |
| `WeakTypes.Decide` | scripts/type-safety-hotspots.ts:543-644 | every call answers, or leads to a circle or to a record value whose search is under way |
| `WeakTypes.RecordCycleDiverges` | scripts/type-safety-hotspots.ts:628-644 | `type A = Record<string, A>`: the search of `A` fits in no number of nested calls |
| `WeakTypes.RecordCycleNeverFalse` | scripts/type-safety-hotspots.ts:628-644 | a record value from which its own alias can be reached is never found to be free of weak types |
| `WeakTypes.SearchStable` | scripts/type-safety-hotspots.ts:569-626 | an answer does not depend on how much room the nested calls are given, so the depth parameter is not part of the result |
| `WeakTypes.Follow` | scripts/type-safety-hotspots.ts:543-567 | a search that answers false has expanded the alias at the end of every repetition-free path that avoids its path set |
| `WeakTypes.RecordValueSearched` | scripts/type-safety-hotspots.ts:628-644 | a search that answers false has searched every record value in its type afresh |
| `WeakTypes.SimplePath` | scripts/type-safety-hotspots.ts:543-567 | every alias path can be shortened to one without repetitions between the same ends |
| `Attribution.ChargesAgree` | scripts/type-safety-hotspots.ts:899-976 | in a properly nested file, the function on top of the stack at a finding contains it and lies strictly inside every other function that does |
| `Attribution.AllChargesAgree` | scripts/type-safety-hotspots.ts:899-984 | the same with the comment directives: in a properly nested file every finding, of the walk or a directive, is charged to the one function around it that lies strictly inside all others around it |
| `Attribution.FileSplits` | scripts/type-safety-hotspots.ts:917-985 | the count of the file, directives included, is the sum of the counts of its functions and of the findings outside all of them |
| `Attribution.FunctionsLaminar` | scripts/type-safety-hotspots.ts:937-976 | of two functions of a file, the later one lies beside the earlier one or strictly inside it |
| `Attribution.FileCountSplits` | scripts/type-safety-hotspots.ts:929-976 | the same for the findings of the walk alone |
| `Attribution.ChargeConserves` | scripts/type-safety-hotspots.ts:929-935 | for any list of findings, charges to functions and uncharged findings add up to the total |
| `Attribution.StackTop` | scripts/type-safety-hotspots.ts:937-976 | the same agreement inside any subtree, against all functions of the file, those entered later included |
| `Attribution.WalkMeaning` | scripts/type-safety-hotspots.ts:937-976 | the walk of a subtree enters its functions in order, charges each finding to the function then on top, adds every finding to the file and leaves the stack as it was |
| `Attribution.WalkOfFile` | scripts/type-safety-hotspots.ts:917-978 | the walk of a file, whatever was counted before, ends with its functions, their charges and the total added |
| `Attribution.FindInnermost` | scripts/type-safety-hotspots.ts:899-915 | the result is the first of the functions around the position with the least `end - start`, none exactly when none contains it, and the function that lies strictly inside all others around it where there is one |
| `Attribution.Walk` | scripts/type-safety-hotspots.ts:937-976 | the walk keeps the function stack and the records consistent |
| `Attribution.Analyzer.constructor` | scripts/type-safety-hotspots.ts:917-925 | an analysis starts with no functions, an empty stack and a zero count |
| `Attribution.Analyzer.ApplyPattern` | scripts/type-safety-hotspots.ts:929-935 | the file and the function on top of the stack are charged, and no other |
| `Attribution.Analyzer.Visit` | scripts/type-safety-hotspots.ts:937-976 | the in-place walk is the walk function |
| `Attribution.Analyzer.VisitChildren` | scripts/type-safety-hotspots.ts:949-976 | the children are walked in order |
| `Attribution.Analyzer.AnalyzeTree` | scripts/type-safety-hotspots.ts:937-978 | after the walk the stack is empty, and functions, counters and file count are those that the findings of the tree determine |
| `Attribution.Analyzer.ChargeDirectives` | scripts/type-safety-hotspots.ts:979-984 | each directive is added to the counter of the smallest function around it, and to no other |
| `Attribution.Analyzer.AnalyzeFile` | scripts/type-safety-hotspots.ts:917-985 | functions, counters and file count are those that the findings of the walk and the directives determine, and the file count splits into them |
| `BrokerProtocol.AgreementExact` | agents/hermes/host/tool-gateway-broker.ts:299-419 | in every interleaving of requests, timer ticks and their key writes on one file: provider, file and environment agree after every step if and only if no success without a new token put back a token other than the current one, and no key write spread a stale hash |
| `BrokerProtocol.ScheduleExact` | agents/hermes/host/tool-gateway-broker.ts:299-419 | the same condition on the schedule, for a portal whose new tokens are new: the three agree throughout if and only if no thread is answered without a new token once a rotation was stored since its start, and none writes a key once the rotation of another was stored since its start or its own last one |
| `BrokerProtocol.StepTracked` | agents/hermes/host/tool-gateway-broker.ts:299-419 | each harmless step keeps the threads with the current token, and the copies with the current hash, those which the schedule says |
| `BrokerProtocol.RotationsAgree` | agents/hermes/host/tool-gateway-broker.ts:299-361 | in particular, if every success carries a new token and no key is written, no interleaving of refreshes breaks the agreement, not even by a failed provider update |
| `BrokerProtocol.RefreshAgreementExact` | agents/hermes/host/tool-gateway-broker.ts:320-360 | the end of one refresh keeps the three in agreement exactly when it does not put back another token than the current one; file and provider agree either way |
| `BrokerProtocol.KeyWriteAgreementExact` | agents/hermes/host/tool-gateway-broker.ts:407-418 | a key write keeps the agreement exactly when the copy it spreads records the current hash |
| `BrokerProtocol.StepAgreementExact` | agents/hermes/host/tool-gateway-broker.ts:299-419 | the exact condition for one step of the protocol |
| `BrokerProtocol.RegisterAgreementExact` | src/lib/hermes-tool-gateway-broker.ts:107-150 | a registration leaves file and provider in agreement exactly when the provider was updated or already held the token |
| `BrokerProtocol.SerialRun` | agents/hermes/host/tool-gateway-broker.ts:299-434 | in every serialised run, background key refreshes, cache hits, refused refreshes and failed provider updates included, with a portal that refuses or rotates a spent token: every file stays in agreement with its provider, and the environment token hashes to the file whose refresh completed last |
| `BrokerProtocol.SerialStep` | agents/hermes/host/tool-gateway-broker.ts:299-434 | each step of such a run keeps that invariant |
| `BrokerProtocol.SpentRun` | agents/hermes/host/tool-gateway-broker.ts:320-358 | in such a run, if the portal refuses spent tokens and issues new ones, the token on which a file and its provider agree is spent if and only if a rotation of it could not be stored in the provider |
| `BrokerProtocol.SpentStep` | agents/hermes/host/tool-gateway-broker.ts:320-358 | each step keeps that equivalence |
| `BrokerProtocol.FailedUpdateLosesToken` | agents/hermes/host/tool-gateway-broker.ts:340-347 | a run in which the portal rotates and the provider update fails: all agree on a spent token, and nothing is cached for it |
| `BrokerProtocol.BrokerTokensStable` | agents/hermes/host/tool-gateway-broker.ts:162-174 | over every run and interleaving of registrations, rotations and key writes, stale copies included, each sandbox keeps its broker token, and a request that presents it is served from that sandbox's own file and no other |
| `BrokerProtocol.StepKeepsTokens` | src/lib/hermes-tool-gateway-broker.ts:107-129 | each step keeps every broker token, in the files and in every loaded copy |
| `BrokerProtocol.RequestStarts` | agents/hermes/host/tool-gateway-broker.ts:506-541 | what a request starts, told from the file, the environment, the cache and the clock: nothing if the file has a broker token and the environment not its refresh token; otherwise a refresh, or, with an access token good for two minutes, the check of the key |
| `BrokerProtocol.TickStarts` | agents/hermes/host/tool-gateway-broker.ts:399-434 | what a timer tick starts: nothing without the file's refresh token in the environment or, unless forced, with a key good for five minutes; otherwise minting a key, after a refresh if no access token is cached |
| `BrokerProtocol.KeyCheckStarts` | agents/hermes/host/tool-gateway-broker.ts:541-544 | the key refresh after a request is the same, and never forced |
| `BrokerProtocol.ReuseWindow` | agents/hermes/host/tool-gateway-broker.ts:229-232 | a fresh access token is reused until 120 seconds before it expires, under the token that is then current and, after a rotation, not under the old one |
| `BrokerProtocol.SpentNeverCached` | agents/hermes/host/tool-gateway-broker.ts:299-345 | in every interleaving, with a portal that never makes a spent token current again, no access token is handed out for a spent refresh token |
| `BrokerProtocol.RegisteredStarts` | src/lib/hermes-tool-gateway-broker.ts:107-150 | a broker started after a first registration meets the assumptions of the results above |
| `BrokerProtocol.HonouredSpentTokenBreaks` | agents/hermes/host/tool-gateway-broker.ts:337-358 | a run of two requests in which the portal still honours a spent token without a new one: the environment goes back to it and the next request is turned away |
| `BrokerProtocol.StaleKeyWriteBreaks` | agents/hermes/host/tool-gateway-broker.ts:407-418 | a run in which a key write spreads a stale copy: the file no longer agrees with its provider and the next request is turned away |
| `BrokerProtocol.RefreshWrites` | agents/hermes/host/tool-gateway-broker.ts:346-357 | a refresh writes at most its own file, and there at most the refresh hash |
| `BrokerProtocol.SerialRefresh` | agents/hermes/host/tool-gateway-broker.ts:320-360 | what the end of a refresh leaves of files, providers and environment when the loaded copy is current |
| `Broker.CachedAccessToken` | agents/hermes/host/tool-gateway-broker.ts:229-304 | an access token is handed out if and only if there is one for the refresh token that expires, and not within 120 seconds |
| `Broker.RefreshAnswer` | agents/hermes/host/tool-gateway-broker.ts:320-360 | what a refresh answers, told from the reply and the provider update: the access token exactly when there is one and the refresh token stays, the file has no provider or the update succeeds; reauthorisation exactly for status 400 and 401; a failed update exactly for a rotation that could not be stored; a failed refresh otherwise |
| `Broker.RefreshEffect` | agents/hermes/host/tool-gateway-broker.ts:320-360 | what a refresh leaves: nothing changed on those failures; the access token in the cache under the new refresh token only; and the new token in environment, file and provider, all or none |
| `Broker.KeyWindow` | agents/hermes/host/tool-gateway-broker.ts:363-418 | a minted key counts as good for 25 minutes; a failure to mint or to store it changes nothing |
| `Broker.IdentifiesExact` | agents/hermes/host/tool-gateway-broker.ts:517 | a file is identified by its broker token, and by its refresh token only if no file has the presented broker token |
| `Broker.RuntimeToken` | agents/hermes/host/tool-gateway-broker.ts:202-212 | a token is resolved if and only if it is the one in the environment, not empty, and the file records its hash |
| `Broker.BrokerProcess.FindStateByBrokerToken` | agents/hermes/host/tool-gateway-broker.ts:139-174 | finds a file that has a provider name and the hash of the broker token, if and only if there is one |
| `Broker.BrokerProcess.FindStateByRefreshToken` | agents/hermes/host/tool-gateway-broker.ts:139-160 | finds a file that has a provider name and the hash of the refresh token, if and only if there is one |
| `Broker.BrokerProcess.FindState` | agents/hermes/host/tool-gateway-broker.ts:517 | broker tokens come before refresh tokens; nothing is found exactly when no file can be identified |
| `Broker.BrokerProcess.BeginRefresh` | agents/hermes/host/tool-gateway-broker.ts:299-304 | the part of a refresh before its first await is the cache lookup |
| `Broker.BrokerProcess.CommitRefresh` | agents/hermes/host/tool-gateway-broker.ts:320-360 | the part of a refresh after the portal's answer, in place, has exactly the effect on cache, files, providers, environment and loaded copy that the protocol gives it, on every error path too |
| `Broker.BrokerProcess.CommitAgentKey` | agents/hermes/host/tool-gateway-broker.ts:403-418 | the end of a key refresh, in place: it answers true exactly when the key was minted and the provider updated, and with the error of the first of the two that failed otherwise |
| `Yaml.RoundTrip` | agents/hermes/config/yaml.ts:5-52 | a printed object whose keys are plain scalars (sections 7.3.3 and 7.4.2 of YAML 1.2.2) reads back as itself if and only if it has entries, its lists hold no nulls, lists or empty objects, its keys and numbers resolve as such under section 10.3.2, and its strings are no words or numbers of the core schema and, where none of the listed characters calls for quotes, are printable and have no blank or end after a leading `-` |
| `Yaml.CarriedExactly` | agents/hermes/config/yaml.ts:44-52 | that condition on strings, for a string alone; in particular every string with one of the listed characters or a line break reads back |
| `Yaml.BareExactly` | agents/hermes/config/yaml.ts:44-52 | a string is printed as it is exactly when it is not empty, has no white space at its ends and none of the nineteen characters that call for quotes, and double-quoted otherwise |
| `Yaml.EscapesOf` | agents/hermes/config/yaml.ts:45-49 | the escapes are those of `JSON.stringify`, character by character |
| `Yaml.ExampleLines` | agents/hermes/config/yaml.ts:8-39 | the printed lines of small trees: two spaces a level, lists at the level of their key, null items nowhere, lists inside lists by index |
| `Yaml.ExampleValues` | agents/hermes/config/yaml.ts:10-38 | the text of the values that fit on the line of their key |
| `Yaml.PrintedInjective` | agents/hermes/config/yaml.ts:5-52 | two such objects with the same text are equal |
| `Yaml.ReadPrinted` | agents/hermes/config/yaml.ts:5-52 | what any object or list with plain keys reads back as, also where the format loses something, in keys or in values; the text is rejected exactly when an unquoted string or a number is no plain scalar |
| `Yaml.TextsLost` | agents/hermes/config/yaml.ts:44-52 | the strings `- a` and `a`, carriage return, `b` are printed without quotes, and an object that holds one of them is not read back |
| `Yaml.KeysLost` | agents/hermes/config/yaml.ts:8-10 | the keys `true` and `12`, which the printer does not quote, come back as a boolean and a number |
| `Yaml.PlainKeys` | agents/hermes/config/yaml.ts:8-10 | a key may have any indicator inside; not at the front, and no `:` before or `#` after a blank |
| `Yaml.RereadSame` | agents/hermes/config/yaml.ts:5-52 | a value is read back unchanged exactly when the format can carry it |
| `Yaml.UnquoteEscaped` | agents/hermes/config/yaml.ts:44-52 | reading a double-quoted scalar undoes the escapes, for every string |
| `Yaml.ReadString` | agents/hermes/config/yaml.ts:44-52 | a printed string reads back as the string if it was quoted, as what the core schema takes it for if it is an unquoted plain scalar, and is rejected otherwise |
| `Yaml.SplitUnlines` | agents/hermes/config/yaml.ts:5-42 | the printed lines, with their indentation, are recovered from the text |
| `Yaml.ToYaml` | agents/hermes/config/yaml.ts:5-42 | the appending loop produces the printed form, entry by entry, at every depth |
| `Yaml.PrintEntry` | agents/hermes/config/yaml.ts:8-39 | one round of the loop prints the key, its value or the block below it |
| `Yaml.PrintItems` | agents/hermes/config/yaml.ts:16-25 | the loop over a list prints its items in order |
| `Yaml.PrintItem` | agents/hermes/config/yaml.ts:17-24 | an item is printed on one line, as a nested block, or not at all |
| `Taint.CollectProductionPathVars` | scripts/find-source-shape-tests.ts:284-315 | the loop ends, with the least set closed under the derivation rule |
| `Taint.CollectSourceVars` | scripts/find-source-shape-tests.ts:622-668 | the loop ends, with the least set that contains the seeds and is closed under the rule |
| `Taint.SeedSourceVars` | scripts/find-source-shape-tests.ts:632-643 | the seeds are the initial names and the variables that read a source, directly or through a source function |
| `Taint.CollectSourceFunctions` | scripts/find-source-shape-tests.ts:456-552 | for each name, the last function with a source read counts, and in it the first read |
| `Taint.CollectSourceTreeVars` | scripts/find-source-shape-tests.ts:554-596 | the same for source-tree reads |
| `Taint.SeedTreeVars` | scripts/find-source-shape-tests.ts:565-583 | their seeds |
| `Taint.LeastIsDerived` | scripts/find-source-shape-tests.ts:284-315 | that set holds the seeds and exactly the names that a chain of declarations derives from them |
| `Taint.PathVarsExact` | scripts/find-source-shape-tests.ts:284-315 | told from the declarations: a name is a production path variable exactly when a chain of declarations ends at it that starts from a repository root or a named production path, goes on through path-like names and has no fixture or configuration file in it |
| `Taint.SourceVarsExact` | scripts/find-source-shape-tests.ts:622-668 | a name is a source variable exactly when it is an initial one or a chain of declarations ends at it that starts with a source read, an initial name, or a file read that uses a production path, and goes on without execution results |
| `Taint.TreeVarsExact` | scripts/find-source-shape-tests.ts:554-596 | the same for source-tree variables |
| `Taint.SourceFunctionsExact` | scripts/find-source-shape-tests.ts:456-552 | a name is a source function exactly when a function of that name that is no execution result has a read that counts; the last such function decides, by its first such read |
| `Taint.LeastMonotone` | scripts/find-source-shape-tests.ts:622-668 | more seeds, or declarations that fire more easily, never lose a name |
| `Taint.OrderIrrelevant` | scripts/find-source-shape-tests.ts:284-315 | the order of the declarations, and repeating them, does not matter |
| `Taint.SourceVarsMonotone` | scripts/find-source-shape-tests.ts:456-668 | more production paths and more initial names never make a source variable disappear, through all that depends on the paths: the source functions, the seeds and the rule of the loop |
| `Taint.SourceFunctionsMonotone` | scripts/find-source-shape-tests.ts:456-552 | more production paths never lose a source function and never make it ask for a production path among its arguments, although a later function hides an earlier one and the first read decides |
| `Taint.SourceReadMonotone` | scripts/find-source-shape-tests.ts:354-409 | nor do they lose a variable that reads a source |
| `Taint.TreeVarsMonotone` | scripts/find-source-shape-tests.ts:554-596 | nor a source-tree variable |
| `Trace.BodyBalanced` | src/lib/trace.ts:281-313 | given a clock that does not go back, a body built from `withTraceSpan`, throws and catches leaves the stack as it was, on return and on throw, and every span lies inside its parent |
| `Trace.StmtBalanced` | src/lib/trace.ts:281-313 | the same for one statement |
| `Trace.SpanBalanced` | src/lib/trace.ts:288-312 | the same for the span that one call wraps around a body |
| `Trace.BodyRuns` | src/lib/trace.ts:281-313 | a body starts exactly the spans that stand before its first throw, in order, nested ones and those in caught bodies included, and throws exactly if one of its statements does |
| `Trace.SpanRecords` | src/lib/trace.ts:281-313 | a wrapped span has its name, the span that was active as its parent, and the status ERROR exactly if a statement of its body throws |
| `Trace.Run` | src/lib/trace.ts:158-217 | after any sequence of starts, ends in any order and flushes: the stack is a duplicate-free subsequence of the span list and holds exactly the spans not ended, and every parent precedes its child |
| `Trace.Do` | src/lib/trace.ts:158-217 | each call keeps that invariant |
| `Trace.StartValid` | src/lib/trace.ts:158-175 | a start keeps it |
| `Trace.EndValid` | src/lib/trace.ts:177-187 | an end, of any span and at any position of the stack, keeps it |
| `Trace.EndOpenEnds` | src/lib/trace.ts:203-206 | the loop of flush ends every open span with the final status and changes nothing else |
| `Trace.EndTwice` | src/lib/trace.ts:177-187 | a second end of a span changes nothing |
| `Trace.FlushOnce` | src/lib/trace.ts:201-255 | the first flush ends every open span and reports the slowest; a later one changes nothing |
| `Trace.ActiveIsLatest` | src/lib/trace.ts:197-199 | the active span is the latest one not yet ended; there is none exactly when all have ended |
| `Trace.SlowestAreLongest` | src/lib/trace.ts:208-217 | the report lists at most ten ended spans, never the root, by falling `end - start`, the earlier of two equals first; it leaves out only spans that come after all those listed, and only when it lists ten |
| `Trace.TraceCollector.constructor` | src/lib/trace.ts:146-156 | a collector starts empty |
| `Trace.TraceCollector.Start` | src/lib/trace.ts:158-175 | the in-place start is the start of the model |
| `Trace.TraceCollector.End` | src/lib/trace.ts:177-187 | the in-place end is the end of the model |
| `Trace.TraceCollector.PopAndEnd` | src/lib/trace.ts:203-206 | popping the last open span and then ending it is ending it |
| `Trace.TraceCollector.EndAllOpen` | src/lib/trace.ts:203-206 | the loop of flush, in place |
| `Trace.TraceCollector.FlushSpans` | src/lib/trace.ts:201-255 | the in-place flush is the flush of the model |
| `Trace.TraceCollector.WithTraceSpan` | src/lib/trace.ts:281-313 | the in-place wrapper is the wrapper of the model, and passes the exception on |
| `Trace.TraceCollector.RunBody` | src/lib/trace.ts:281-313 | running a body in place is running it in the model |
| `Conflicts.DetectorsAgree` | src/lib/messaging-conflict.ts:174-232 | for a sandbox that uses a channel with token keys, the pair with another sandbox is reported as an overlap exactly once, with a given reason, if and only if the conflict search reports the other one with that reason, if and only if that one uses the channel too and the hashes deserve the reason: a shared one for a match; for an unknown, none shared and one missing |
| `Conflicts.RequestReasonExact` | src/lib/messaging-conflict.ts:83-105 | the request detector, told from the hashes: a match exactly when some key has the same non-empty hash in both; unknown exactly when none has and there is no key or one lacks a hash; nothing exactly when the channel is not used or every key has two different hashes |
| `Conflicts.PairReasonExact` | src/lib/messaging-conflict.ts:107-127 | the same for the pair detector |
| `Conflicts.ConflictsOfRequests` | src/lib/messaging-conflict.ts:174-192 | what the conflict search finds for all requests: for each with a channel name, the other sandboxes with a reason |
| `Conflicts.WithoutTokenKeys` | src/lib/messaging-conflict.ts:83-127 | without token keys the two detectors give the same reason exactly when the request has no hashes, or shares none and has one that cannot be compared |
| `Conflicts.PairCount` | src/lib/messaging-conflict.ts:199-232 | each pair of sandboxes is reported once, in one of its two orders, exactly when there is a reason |
| `Conflicts.PairSymmetric` | src/lib/messaging-conflict.ts:107-127 | the reason for a pair does not depend on its order |
| `Conflicts.CompareSymmetric` | src/lib/messaging-conflict.ts:94-104 | nor does the comparison of two sets of hashes |
| `Conflicts.ByChannelHolders` | src/lib/messaging-conflict.ts:205-217 | the group of a channel holds the entries that use it, in registry order, and no channel has two groups |
| `Conflicts.CountAll` | src/lib/messaging-conflict.ts:199-232 | the reports on a channel are those on the pairs of the entries that use it |
| `Conflicts.ConflictsOfRequest` | src/lib/messaging-conflict.ts:174-192 | the conflicts of a request are exactly the other sandboxes for which there is a reason |
| `Conflicts.ConflictReasonForRequest` | src/lib/messaging-conflict.ts:83-105 | the loop with its flag finds a shared hash, else an unknown one, else nothing |
| `Conflicts.ConflictReasonForPair` | src/lib/messaging-conflict.ts:107-127 | the loop over the token keys of two sandboxes finds the same |
| `Conflicts.GroupByChannel` | src/lib/messaging-conflict.ts:205-217 | the `Map` filled by the first loop |
| `Conflicts.RowOverlaps` | src/lib/messaging-conflict.ts:223-228 | the inner loop reports one member against all later ones |
| `Conflicts.GroupOverlaps` | src/lib/messaging-conflict.ts:222-229 | the loop over a group reports every pair |
| `Conflicts.FindAllOverlaps` | src/lib/messaging-conflict.ts:199-232 | all groups are reported; groups of fewer than two members add nothing |
| `Recovery.RecoveredNames` | src/lib/registry-recovery-action.ts:177-199 | no sandbox is lost; the names are the old ones, the valid name of a confirmed session and, if the gateway could be inspected, the valid live names, and no others; the two counters add up to the number of sandboxes added |
| `Recovery.RecoversWhenMissing` | src/lib/registry-recovery-action.ts:58-78 | a recovery runs exactly when a name that was asked for, or that of the session, is not empty and not in the registry |
| `Recovery.AddedEntries` | src/lib/registry-recovery-action.ts:22-56 | a sandbox that is added has the content of the session if it is that of a confirmed one, and is blank otherwise |
| `Recovery.NormalIs` | src/lib/registry-recovery-action.ts:22-39 | an entry rewritten from its own metadata keeps its content, up to empty strings and a missing list |
| `Recovery.RecoveredEntries` | src/lib/registry-recovery-action.ts:41-158 | what becomes of each entry: kept, put in normal form, or overwritten from the confirmed session |
| `Recovery.AgentKeptExact` | src/lib/registry-recovery-action.ts:22-56 | the agent of a sandbox survives exactly when the sandbox is not written from a confirmed session, or had none |
| `Recovery.RecoveredDefault` | src/lib/registry-recovery-action.ts:160-199 | the default after a recovery: the requested sandbox once the registry has it; otherwise the default that was set; otherwise, unless another sandbox was requested, the session's if the registry has it; otherwise the first sandbox added, if any |
| `Recovery.AddLiveFirst` | src/lib/registry-recovery-action.ts:130-158 | without a default, the first new valid live name becomes it |
| `Recovery.RecoverTwice` | src/lib/registry-recovery-action.ts:177-199 | a second recovery from the same sources adds nothing |
| `Recovery.ValidNamesAre` | src/lib/registry-recovery-action.ts:130-158 | the live names added are exactly the valid ones in the list |
| `Recovery.ValidNameExact` | src/lib/runner.ts:316-331 | the accepted names: a lower-case letter, then letters, digits and hyphens, with no hyphen last, at most 63 characters |
| `Recovery.AddLiveEntry` | src/lib/registry-recovery-action.ts:130-158 | an entry that is listed live is rewritten from its metadata, once or more often with the same effect; others stay |
| `Recovery.Registry.UpsertRecoveredSandbox` | src/lib/registry-recovery-action.ts:41-56 | an invalid name changes nothing, a known one is overlaid, a new one is added and becomes the default if there is none |
| `Recovery.Registry.SeedRecoveryMetadata` | src/lib/registry-recovery-action.ts:91-128 | the metadata map and the session's sandbox |
| `Recovery.Registry.RecoverFromLiveGateway` | src/lib/registry-recovery-action.ts:130-158 | the loop over the live names, and its count |
| `Recovery.Registry.RecoverRegistryEntries` | src/lib/registry-recovery-action.ts:177-199 | the whole recovery, in place |
| `Headings.NormalizedLevels` | scripts/docs-to-skills.py:121-147 | the new levels start at 1, never rise by more than one and are nowhere deeper than the old ones; any other levels of that kind are nowhere deeper than the new ones |
| `Headings.NormalizedSame` | scripts/docs-to-skills.py:121-147 | the rewritten lines are the original ones if and only if these are of that kind |
| `Headings.NormalizedTwice` | scripts/docs-to-skills.py:121-147 | rewriting twice is rewriting once |
| `Headings.RemappedGreatest` | scripts/docs-to-skills.py:135-141 | the remap is the pointwise greatest level sequence of that kind |
| `Headings.RemappedWellStepped` | scripts/docs-to-skills.py:135-141 | the remap is of that kind |
| `Headings.NormalizedLine` | scripts/docs-to-skills.py:143-148 | each heading line has its new level and the rest of the line as before; other lines stay |
| `Headings.LevelExact` | scripts/docs-to-skills.py:122 | the level is the number of signs, from one to six, before the first white space, and 0 for every other line |
| `Headings.SpacesAre` | scripts/docs-to-skills.py:122 | the 29 characters that count as white space |
| `Headings.CollectHeadings` | scripts/docs-to-skills.py:125-130 | the first pass finds the headings in order |
| `Headings.Remap` | scripts/docs-to-skills.py:135-141 | the second pass gives every heading its new level |
| `Headings.Rewrite` | scripts/docs-to-skills.py:143-148 | the third pass rewrites the heading lines and no others |
| `HeadingAnchors.NormalizedTextTwice` | scripts/docs-to-skills.py:113-154 | a second run of the whole function changes nothing if and only if the text has no headings, or no anchor before a heading stands within the id of another |
| `HeadingAnchors.SecondRunChanges` | scripts/docs-to-skills.py:152-154 | a text with an anchor in the id of another, which a second run changes again |
| `HeadingAnchors.NestedIds` | scripts/docs-to-skills.py:154 | such nesting takes an id with a line break in it |
| `HeadingAnchors.NormalizedTextSame` | scripts/docs-to-skills.py:113-154 | the whole function leaves a text as it is if and only if it has no headings, or they start at level 1, never rise by more than one and have no anchor directly before them |
| `HeadingAnchors.NormalizedTextLines` | scripts/docs-to-skills.py:113-154 | the result is, up to empty lines, the text with the new headings, whose levels start at 1 and never rise by more than one |
| `HeadingAnchors.SpacedTwice` | scripts/docs-to-skills.py:152-154 | the spacing of anchors is idempotent on exactly the texts without such nesting |
| `HeadingAnchors.PassedFrom` | scripts/docs-to-skills.py:152-154 | what is left for a second substitution are exactly the matches within the anchor of another |
| `HeadingAnchors.AnchorExact` | scripts/docs-to-skills.py:154 | an anchor before a heading is what fits the regular expression, part by part, and it fits in one way |
| `HeadingAnchors.PassedLines` | scripts/docs-to-skills.py:152-154 | the substitution adds empty lines and nothing else, and at least one exactly when there is a match |
| `HeadingAnchors.MatchGone` | scripts/docs-to-skills.py:154 | replacing a match takes that match away and keeps every other one before its heading |
| `HeadingAnchors.SpotsDiffer` | scripts/docs-to-skills.py:154 | no two matches have their heading in common |
| `HeadingAnchors.NestedNormalized` | scripts/docs-to-skills.py:135-154 | new heading levels neither nest a match in another nor free one |
| `HeadingAnchors.NormalizeHeadingLevels` | scripts/docs-to-skills.py:113-149 | the three passes and the spacing of anchors together, with a result whose levels start at 1 and never rise by more than one |
| `SkillOverflow.PlacementConserves` | scripts/docs-to-skills.py:1689-1746 | the pieces into which a section is cut, inline and deferred, are together its text: all of it, once and in order, up to white space |
| `SkillOverflow.SplitWoven` | scripts/docs-to-skills.py:1452-1480 | the text that was split is the preamble and the blocks of the subsections, in order and unchanged, with nothing but white space before, between and after them |
| `SkillOverflow.SplitConserves` | scripts/docs-to-skills.py:1452-1480 | so they have together exactly its characters other than white space, in order |
| `SkillOverflow.FlatGroups` | scripts/docs-to-skills.py:1452-1480 | the groups of lines, one after the other, are the lines |
| `SkillOverflow.GroupsCut` | scripts/docs-to-skills.py:1468-1477 | an H3 heading starts every group but the first and is nowhere else |
| `SkillOverflow.SectionHeadings` | scripts/docs-to-skills.py:1468-1471 | the heading of a section is its first line without the signs and the white space around it |
| `SkillOverflow.StripTrims` | scripts/docs-to-skills.py:1466-1480 | stripped text has no white space at its ends |
| `Text.JoinLinesOf` | scripts/docs-to-skills.py:1468 | splitting a text into lines and joining them gives the text back |
| `Text.NoNewlines` | scripts/docs-to-skills.py:1468 | and no line contains a newline |
| `Text.LinesOfJoin` | scripts/docs-to-skills.py:121-149 | joining lines and splitting the text again gives the lines back |
| `SkillOverflow.AdmittedSize` | scripts/docs-to-skills.py:1698-1704 | the size check admits exactly the text that brings SKILL.md to at most 11500 characters, or, with a line there already, 11501 |
| `SkillOverflow.AdmittedSection` | scripts/docs-to-skills.py:1726-1733 | each subsection that is admitted keeps the file to at most 11501 characters |
| `SkillOverflow.SplitMarkdownH3Sections` | scripts/docs-to-skills.py:1452-1480 | the loop with its nested flush splits at the H3 headings |
| `SkillOverflow.FindFree` | scripts/docs-to-skills.py:1652-1655 | the search for a file name ends, with the first candidate that is not taken |
| `SkillOverflow.CandidatesDiffer` | scripts/docs-to-skills.py:1651-1655 | no two candidates are the same |
| `SkillOverflow.UnlinkExact` | scripts/docs-to-skills.py:1677-1680 | in deferred text the directory is taken out of each link below references/, from left to right, and nothing else changes |
| `SkillOverflow.UnlinkNone` | scripts/docs-to-skills.py:1677-1680 | text without such a link stays |
| `SkillOverflow.RefBlockStarts` | scripts/docs-to-skills.py:1680-1682 | a block of a reference starts with its own heading, or gets that of the section |
| `SkillOverflow.TopicsExact` | scripts/docs-to-skills.py:1684-1686 | the topics of a reference are those of its blocks, each once |
| `SkillOverflow.PointerLinks` | scripts/docs-to-skills.py:1713-1741 | a pointer names the reference and holds one link to it |
| `SkillOverflow.TopicsNamed` | scripts/docs-to-skills.py:1736-1739 | at most three topics are named, the others in sum |
| `SkillOverflow.Skill.constructor` | scripts/docs-to-skills.py:1640-1645 | a skill starts with its front matter and the names of its copied pages |
| `SkillOverflow.Skill.UniqueGeneratedRefName` | scripts/docs-to-skills.py:1647-1659 | a page keeps its name; a new one is the first free candidate and is reserved; no two pages share one |
| `SkillOverflow.Skill.DeferDetail` | scripts/docs-to-skills.py:1661-1687 | the block, unless it is white space, is added at the end of the reference of its page; every reference keeps its title and holds exactly the deferred pieces of its page, in order |
| `SkillOverflow.Skill.AppendSubsections` | scripts/docs-to-skills.py:1723-1735 | each subsection goes to SKILL.md if it fits and to the reference if it does not, in order |
| `SkillOverflow.Skill.AppendSectionOrDefer` | scripts/docs-to-skills.py:1689-1746 | over any sequence of calls the inline pieces stand in SKILL.md in order and the others in the references; the call adds exactly the text of the section to the pieces, and its layout is stated line by line |
| `StaleDist.MaxMtime` | src/lib/stale-dist-check.ts:18-47 | the loop with its stack ends, for every finite tree, with the greatest time of the accepted readable files not below a skipped directory, or 0 |
| `StaleDist.Popped` | src/lib/stale-dist-check.ts:22-30 | popping a directory leaves the files still to be seen unchanged |
| `StaleDist.Looked` | src/lib/stale-dist-check.ts:31-45 | so does looking at one entry |
| `StaleDist.NewestUnique` | src/lib/stale-dist-check.ts:18-47 | the result is determined by the files that count |
| `StaleDist.ListingOrderIrrelevant` | src/lib/stale-dist-check.ts:18-47 | the order of a listing does not matter |
| `StaleDist.CheckStaleDist` | src/lib/stale-dist-check.ts:50-62 | stale exactly when both directories exist, both have files that count and the sources are newer by more than the grace time |
| `StaleDist.NamesExact` | src/lib/stale-dist-check.ts:55-56 | sources are named `*.ts` but not `*.test.ts`, compiled files `*.js` |
| `DeviceCode.PollForToken` | src/lib/oauth-device-code.ts:204-274 | for every sequence of answers the loop ends, at the first answer that is not a reason to wait or at the deadline: with the two tokens exactly when that answer has both, in their order; with its error code exactly when it is neither of the two reasons to wait nor an expiry, or with a code of its own for a missing token; and with a timeout otherwise. The wait after k `slow_down` answers is the clamped interval plus 5k seconds, at most 30 |
| `DeviceCode.RequestBound` | src/lib/oauth-device-code.ts:214-273 | at most as many requests as clamped initial intervals fill the timeout, rounded up |
| `DeviceCode.NextWait` | src/lib/oauth-device-code.ts:256-258 | each `slow_down` lengthens the wait by 5 seconds, up to 30 |
| `DeviceCode.TimeAdvances` | src/lib/oauth-device-code.ts:219-220 | every round takes at least the clamped initial interval |
| `DeviceCode.ClampInterval` | src/lib/oauth-device-code.ts:117-126 | an interval between 1 and 30 seconds stays, any other goes to the nearer bound, and a value that is no number to the lower one |

## Left out

- The TypeScript parser and the regular expressions over source text: type nodes, syntax nodes with hit counts, and
  declarations with flags and sets of mentioned names stand for what they find.
- Attribution: the pattern counters of a function are one counter; building the alias map, the other per-function
  metrics, scoring and the printed report.
- BrokerProtocol.SerialRun: a registration while the broker runs is not among the serialised events, because it
  replaces the provider's token without the environment's; `RegisterAgreementExact` says what it leaves.
- BrokerProtocol.AgreementExact: one state file; with several, the environment can agree with only one of them at a
  time, which is what `SerialRun` states.
- BrokerProtocol.ScheduleExact: one state file, as `AgreementExact`, and runs that start without a request under way.
- Broker: SHA-256 is taken to be injective; state files that cannot be parsed or lack a refresh hash, time stamps and
  fields that no decision depends on, HTTP routing, headers and forwarding.
- Broker: the lifetime of a minted key is the default of 1800 seconds, which the source lets the environment override;
  and which error a failed mint ends with.
- Broker: the broker token argument of `persistHermesToolGatewayProviderState`, which registration does not pass, and
  starting, stopping and probing the broker process.
- Yaml: functions, symbols and big integers as values, lone surrogates, and integer-like keys that JavaScript
  enumerates first; the entries of an object are a sequence. Keys that are no plain scalars, which the printer
  writes as they are. The reader has no flow, compact nested or multi-line style, which the printer does not emit.
- Taint.CollectSourceTreeVars: the names bound by `for (const x of ...)` over a source tree; which functions enumerate
  source trees, and which variables collect one locally, is given.
- Trace: asynchronous bodies of `withTraceSpan`, events, attributes, status messages, rounding in the report, and
  writing the file.
- Conflicts: requests given as plain strings are taken in their object form; `backfillMessagingChannels`.
- Recovery: the registry lock, file errors, and how the gateway is asked; a session's missing fields are absent options.
- Recovery.RecoveredNames: takes the registry's object for a map. In the source the name `constructor`, the one valid
  name of this kind, is also found on the prototype of a registry that has no such sandbox, so the update is tried in
  place of the addition.
- SkillOverflow: cleaning of the page text, images, removal of repeated sections and the final file layout; the
  lower-cased base of a reference name and the title of a page are given. Front matter and other fixed lines are
  parameters.
- SkillOverflow.PlacementConserves: compares the characters that are not white space, because white space around a
  block is stripped; `SplitWoven` says that inside the pieces it stays.
- `strip_commented_out_blocks`, skill naming, related-skill extraction and the other parts of `docs-to-skills.py`.
- StaleDist: symbolic links, and files that change during the walk.
- DeviceCode: a request that fails outright and ends the loop with that error, and log lines.
- The oclif commands, Docker, SSH, the user interface and the diagnostics preloads.
