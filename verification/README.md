# The dent8 CLI, verified

A Dafny model of the parts of the dent8 command line that its safety claims rest on, with proofs of those claims.

- **The authority registry** (`AuthorityLevels`, `Registry`, `RegistryGate`, `RegistryCommands`, `DoctorProbe`): sources
  with a ceiling, an issuer and a scope; the write gate that walks issuer chains, the validator, the dependents search,
  and the add, remove and defaults commands that change the registry file.
- **The managed block** (`Text`, `Splice`, `SpliceScan`, `SpliceProofs`, `JsonText`, `Bytes`, `ResourceUri`,
  `ManagedBlock`, `BlockLines`, `FactLines`, `RoundTrip`, `BlockImport`, `ImportMeaning`, `ExportedFiles`, `HiddenFence`,
  `SentinelValues`, `Native`): rendering facts into a native memory file, splicing the block among the user's text, reading it back, and
  finding fact URIs in it.
  Text is a sequence of Unicode characters, with the string operations of the Rust standard library defined on it.
- **The write protocol** (`EventIds`, `FactLog`, `FoldMeaning`, `Firewall`, `FactIndex`, `Policies`, `PolicyMeaning`,
  `Batches`, `Ops`, `OpEffects`, `OpTheorems`, `OpRequests`, `OpOutcomes`, `OpRefusals`, `LogInvariants`, `Runs`,
  `StaleContest`, `ReloadCheck`, `LogFile`, `Concurrency`, `WriteCheck`): the per-fact fold and the firewall, and what
  they mean in terms of the events alone; predicate policies; the operations that revise beliefs, each with the exact
  condition under which it goes through, the events it adds and the reason it is refused; the durable log as an object
  its operations change, the reload check, and any number of writers under the lease.
- **Signed identity** (`Identity`, `IdentityProofs`, `Handshake`): grants, the write gate, attestations signed in place,
  and the hello/prove handshake from both ends. Signatures are ideal: a key ring remembers which secret signed which
  message, and verifying asks it.
- **Env files and retries** (`EnvFile`, `Retry`): shell quoting, the two env-file readers, and the backoff.

`Wrappers` holds `Option` and `Result`. Code that loops over changing state is a method or a class proved against a
specification function; the theorems are about those functions, so they hold of the methods.

Properties the program does not have on all inputs; each has a theorem that says exactly when it holds, and an input on
which it fails:

- A log the program itself wrote can fail its own reload check. A contradiction of an already contested fact is accounted
  for by that contest; when the contested fact expires first, its contradictors remain as unexplained duplicates of a
  unique predicate. It fails exactly when an expired belief names a fresh, uncontested one that has a fresh rival
  (`Runs.ReloadFailsIffAContestWentStale`); `StaleContest.DisputedStatusStopsLoading` is such a run.
- Exporting again after a refresh need not reproduce the file: the old block's own line endings count towards the file's
  dominant ending. It does exactly when the endings outside the old block, with those of the new one, keep it dominant
  (`SpliceProofs.OneRefreshSettlesIffEndingStays`); `SentinelValues.OneExportMayNotSettle` gives, whenever the facts take
  fewer lines than before, a file that changes once more. The pass after that always agrees, unless END shares its line
  with a later BEGIN (`SpliceProofs.ThirdPassEqualsSecond`); `SpliceProofs.OneLineOfThreeIsRefused` is such a file.
- Export and import is not the identity on every fact: a value or id that spells a sentinel, a source of more than one
  word, an id that opens a receipt comment, and a subject whose heading import reads are not carried. On names that keep
  to one line this list is exact (`BlockImport.ExportThenImportIsTheIdentityIff`);
  `SentinelValues.EndSentinelValueIsLost` and `SentinelValues.TwoWordSourceIsLost` are such facts. A name with a line feed
  breaks the lines of the block themselves (`SentinelValues.LineFeedInTheIdCutsTheReceipt`).
- A block that prints a sentinel among its facts blocks the next export
  (`SentinelValues.NextExportIsRefusedIffASentinelIsSpelled`; the fact of `SentinelValues.EndSentinelValueIsLost` does).
- The importer does not read a block behind a fence it takes for open, though the splice knew better
  (`ExportedFiles.ExportedFileReadsBackIff`, `ExportedFiles.RefreshedFileReadsBackIff`); in
  `HiddenFence.ExportBehindAHiddenFenceIsLost` every exported fact is lost that way.
- A setting with a line feed does not survive the env file (`EnvFile.EnvFileReadsBackIff`): no line can say it.
- The native-memory reader does not percent-decode, so it names a fact by its encoded segments, which are the fact's own
  names exactly when these need no encoding (`Native.ReferenceNamesTheFactIffUnencoded`);
  `Native.KeyWithASpaceIsMisread` is a name that does.

## Model

| member | source | states |
|---|---|---|
| Registry.RegistryGrantCheck | crates/dent8-cli/src/main.rs:2622-2697 | The write gate as it runs, a walk up the issuer links with a growing visited set, ends on every registry (cyclic ones too) and decides what the declarative theorems below describe; with no registry every write passes |
| RegistryGate.GateAcceptsIffAuthorized | crates/dent8-cli/src/main.rs:2622-2697 | The gate accepts exactly when the request is at or below the direct ceiling, the issuer chain reaches a root, and every registered link on it covers the subject and holds at least the requested level |
| RegistryGate.CycleRefusalIffUngrounded | crates/dent8-cli/src/main.rs:2639-2697 | The cycle refusal happens exactly when the ceiling and every link would allow the write but the chain never reaches a root |
| RegistryGate.GateAnswerIsTheCase | crates/dent8-cli/src/main.rs:2622-2697 | The gate's answer is true: it names the first link up the chain that does not cover the subject or hold the level, or the link at which an authorizing chain comes back on itself |
| RegistryGate.NoDelegationBeyondWhatIsHeld | crates/dent8-cli/src/main.rs:2611-2697 | What the gate accepts for a source it accepts for every registered issuer on that source's chain |
| RegistryGate.ListingNeverWidensOthers | crates/dent8-cli/src/main.rs:3072-3079 | Listing a source that was not listed before never lets any other source write more |
| Registry.ValidateAuthorityGrant | crates/dent8-cli/src/main.rs:2971-3038 | The add-time validator as it runs: scope shape, self-issue, and a walk that checks ceiling and scope at every link and refuses a cycle |
| RegistryCommands.ValidatedGrantIsFullyUsable | crates/dent8-cli/src/main.rs:2971-3038 | A validated grant, once inserted, admits exactly the levels up to its own maximum on exactly the subjects its own scope covers: no ancestor takes any of it back |
| RegistryCommands.ValidatorAcceptsIffBacked | crates/dent8-cli/src/main.rs:2971-3038 | The validator accepts exactly a well-formed scope whose issuer chain, if it has one, ends, never comes back to the source, and holds at every link the level and scope granted; anything else it refuses |
| RegistryCommands.RefusedGrantIsTheCase | crates/dent8-cli/src/main.rs:2971-3038 | What the validator refuses a grant for is so: a malformed scope, a self-issued grant, or the first link up the issuer's chain that comes back, holds less, or is scoped to another subject |
| RegistryCommands.IssuerChainReaches | crates/dent8-cli/src/main.rs:3129-3145 | The walk answers true exactly when some number of issuer links leads to the target, on any registry |
| RegistryCommands.DependentGrants | crates/dent8-cli/src/main.rs:3117-3126 | The dependents are exactly the sources whose issuer chain reaches the removed one |
| RegistryCommands.AuthorityFile.CmdAdd | crates/dent8-cli/src/main.rs:3040-3112 | Adding a grant with a well-formed scope and a backing chain leaves the old map with exactly this grant at this source, which answers 0; any other leaves the file as it was and answers 2 |
| RegistryCommands.AuthorityFile.CmdRemove | crates/dent8-cli/src/main.rs:3165-3227 | Removal refuses an unknown source and, unless forced, one that others depend on; otherwise the map keeps exactly the sources that are neither the removed one nor on a chain through it, each with its grant unchanged |
| RegistryCommands.AuthorityFile.CmdDefaults | crates/dent8-cli/src/main.rs:3245-3333 | Seeding leaves every grant that is there as it is; the new keys are the old ones with source:human, source:ci and source:agent, and each of these that was missing is a root without a scope at High, Medium and Low |
| RegistryCommands.ForcedRevocationNeverLoosens | crates/dent8-cli/src/main.rs:3182-3197 | After a forced removal, on any registry: every survivor's decision is unchanged, no removed source writes above Unknown, anything accepted above Unknown was accepted before, and no surviving grant names a removed issuer |
| RegistryCommands.RemovalWithoutCascadeWidens | crates/dent8-cli/src/main.rs:3165-3197 | A concrete run of commands after which removing only the issuer would let its delegate write what it could not write before: why the cascade is there |
| RegistryCommands.CommandsKeepAcyclic | crates/dent8-cli/src/main.rs:3072-3079 | Every sequence of add (also re-adding with another issuer), remove and defaults keeps an acyclic issuer graph acyclic |
| RegistryCommands.CommandBuiltRegistriesNeverCycle | crates/dent8-cli/src/main.rs:3040-3266 | From no file at all, no such sequence ever makes the gate answer with its cycle refusal |
| DoctorProbe.ScopedProbeSubject | crates/dent8-cli/src/main.rs:2575-2588 | On any registry: the scope of the first registered link whose scope is present and not `*`, and nothing exactly when the chain has no such link |
| DoctorProbe.AuthorityBelow | crates/dent8-cli/src/doctor.rs:2437-2446 | The level one rank down, for every level but Unknown |
| DoctorProbe.ProbeIsTheMostItMay | crates/dent8-cli/src/doctor.rs:2478-2513 | The probe is at the registered ceiling, else that of the signed grant, else High; about the first literal scope of the issuer chain, else the scope of the grant, where that spells a subject, and otherwise about `diagnostic:` and the run |
| DoctorProbe.ProbeIsAcceptedIfAnythingIs | crates/dent8-cli/src/doctor.rs:2478-2513 | If the gate accepts a source at its own maximum on any parseable subject, it accepts the doctor's probe for that source |
| DoctorProbe.ProbeOfAValidatedGrantIsAccepted | crates/dent8-cli/src/doctor.rs:2478-2513 | The doctor's probe for a freshly validated grant is always accepted |
| WriteCheck.WriteCheckRuns | crates/dent8-cli/src/doctor.rs:2530-2606 | The doctor's write check on any well-kept log: once its probe fact is asserted, the supersession from one level below is refused and leaves the probe believed with its value, and once the retraction is accepted nothing of the pair is believed. If nothing of the pair was believed before, the probe is the fact explained, at any time, and the retraction is accepted exactly when the gates open for it and the log loads |
| Splice.ManagedBlockSentinels | crates/dent8-cli/src/memory.rs:216-255 | The loop over lines, with its fence state and its two lists, records what the scan function records |
| SpliceScan.FenceIff | crates/dent8-cli/src/memory.rs:192-199 | A line is a fence of n marks exactly when, whitespace aside, it starts with a run of exactly n backticks or tildes, three or more |
| SpliceScan.FenceClosesIff | crates/dent8-cli/src/memory.rs:224-240 | An open fence is closed exactly by a bare run of its own mark that is no shorter; no other line changes it |
| SpliceProofs.ScanRecordsExactlyTheLive | crates/dent8-cli/src/memory.rs:216-255 | A position is recorded exactly when the marker stands there, first of its kind on its line, on no fence line and inside no code fence |
| SpliceProofs.RefreshesExactlyOneLivePair | crates/dent8-cli/src/memory.rs:293-346 | The splice refreshes exactly the files with one live BEGIN and one live END, in that order |
| SpliceProofs.RefusesExactlyTheMalformed | crates/dent8-cli/src/memory.rs:284-346 | It refuses for stray sentinels exactly when some sentinel is live and the file is no such pair, and for an open fence exactly when no sentinel is live and a non-empty file ends inside a fence |
| SpliceProofs.AppendKeepsTheFile | crates/dent8-cli/src/memory.rs:296-318 | An append starts with the whole file and puts the block after an empty line, in the file's own line ending: nothing is added where the file ends in two endings, one where it ends in a line feed, two otherwise |
| SpliceProofs.RefreshKeepsHeadAndTail | crates/dent8-cli/src/memory.rs:319-343 | Whatever the block: a refresh returns the text before BEGIN, the new block, and the text after END; only the one line ending after END may be rewritten; what it replaced was bounded by live sentinels |
| SpliceProofs.ExportingAgainChangesNothing | crates/dent8-cli/src/memory.rs:269-346 | After a create or an append, splicing the same block again returns the same text as a refresh |
| SpliceProofs.OneRefreshSettlesIffEndingStays | crates/dent8-cli/src/memory.rs:269-346 | Splicing the same block again after a refresh changes nothing if and only if the refresh left the dominant line ending of the file as it was; in terms of the input, if and only if the line endings outside the old block, with those of the new one, still favour it |
| SpliceProofs.OneRefreshMayNotSettle | crates/dent8-cli/src/memory.rs:319-343 | For any two blocks, the new one with fewer line feeds than the old: a file that starts with the old block, which the first refresh with the new block and the second leave as two different texts |
| SentinelValues.OneExportMayNotSettle | crates/dent8-cli/src/memory.rs:355-380 | The same for what export renders: whenever the facts take fewer lines than those exported before, some file with the earlier export changes once more on the second export |
| SpliceProofs.ThirdPassEqualsSecond | crates/dent8-cli/src/memory.rs:183-187 | After any refresh the third pass equals the second. The one exception is stated exactly: END shares its line with a later BEGIN, and then the second pass is refused |
| SpliceProofs.OneLineOfThreeIsRefused | crates/dent8-cli/src/memory.rs:216-255 | The one-line file BEGIN END BEGIN is such an exception: refreshed once, refused the next time |
| ManagedBlock.RenderBlock | crates/dent8-cli/src/memory.rs:110-161 | The renderer's output buffer ends as the specified block, and every fact is either written or counted as redacted |
| ManagedBlock.FlagsAreShown | crates/dent8-cli/src/memory.rs:165-178 | A disputed fact is flagged as contested with the number of its rivals, a stale one as stale, any other not at all; what is printed determines both |
| ManagedBlock.ParseImportFile | crates/dent8-cli/src/memory.rs:590-683 | The import loop, with its three flags, yields the proposals and skips the line rules give, with their line numbers |
| ImportMeaning.ModeIsKnown | crates/dent8-cli/src/memory.rs:590-634 | Where the importer takes a line to stand, on any file: in the block if of the sentinel lines before it the last holds BEGIN; in a fence if the fence lines before it are odd in number, and in a `dent8` one if the last of them says so |
| ImportMeaning.ImportIsOfTheLines | crates/dent8-cli/src/memory.rs:590-683 | Import proposes exactly what the lines offer where they stand (each line of a `dent8` fence as it is, a receipt where no fence is open) and reports exactly the malformed receipts, and outside the block the bare references and the free prose |
| ImportMeaning.ProposalsAreInOrder | crates/dent8-cli/src/memory.rs:590-683 | No line yields two proposals, and they come in the order of the lines |
| ImportMeaning.HandWrittenLineReads | crates/dent8-cli/src/memory.rs:479-535 | A line written by hand, anything before the first URI and any gap up to an equals sign, reads as the fact of that URI with the text behind the sign as its value |
| BlockLines.MarkersAreWellChosen | crates/dent8-cli/src/memory.rs:60-64 | The two sentinels the program uses meet what the splice theorems ask of sentinels |
| ResourceUri.ResourceUriReadsBack | crates/dent8-cli/src/mcp.rs:1743-1801 | A fact URI parses back to its kind, key and predicate, whatever Unicode they hold |
| ResourceUri.ParsedIff | crates/dent8-cli/src/mcp.rs:1743-1801 | A text is read as the URI of a fact if and only if it is the scheme and three non-empty segments joined by slashes that decode to its names |
| ResourceUri.SegmentReadsBack | crates/dent8-cli/src/mcp.rs:1769-1801 | Percent-encoding a segment is undone by decoding, for every string, through UTF-8 |
| JsonText.UnescapeEscape | crates/dent8-cli/src/memory.rs:78-84 | A JSON string as written reads back to the text, and reading stops at its own closing quote |
| FactLines.EscapingAddsNone | crates/dent8-cli/src/memory.rs:78-84 | Escaping a value brings in no sentinel that the value did not hold |
| FactLines.HintsReadBackIff | crates/dent8-cli/src/memory.rs:459-475 | Authority and source come back from the receipt comment, whatever the fact id holds and whatever flags follow, if and only if the source is one word that does not end in `-->` |
| RoundTrip.FactLineReadsBackIff | crates/dent8-cli/src/memory.rs:499-535 | The text of a fact line parses back to the same kind, key, predicate, value, authority and source, whatever the names hold and also when the value holds quotes, newlines, `=`, a URI or the receipt comment itself, if and only if the source is one word that does not end in `-->` and the fact id opens no receipt comment of its own |
| BlockImport.ExportThenImportIsTheIdentityIff | crates/dent8-cli/src/memory.rs:590-683 | Importing a rendered block yields exactly one proposal per fact that is not redacted, in order and from its own line, with nothing skipped, if and only if no value or fact id spells a sentinel, no fact id opens a receipt comment, every source is one word that does not end in `-->`, and no heading is itself read as a fact, is malformed as one, or ends the block |
| BlockImport.BlockInAFileReadsIff | crates/dent8-cli/src/memory.rs:590-683 | Among any lines above and below: the proposals are those of the lines above, each fact from its own line, and those of the lines below, if and only if the importer takes no fence to be open where the block begins (or none of `dent8`, nothing was written, and the lines below read the same inside a fence) |
| BlockImport.BlockIsReadIffUnfenced | crates/dent8-cli/src/memory.rs:590-683 | Whatever flags the importer reaches the block with, it reads exactly the block's facts if and only if no fence is open, or the fence is not a `dent8` one and nothing was written |
| RoundTrip.RenderedBlockIsABlock | crates/dent8-cli/src/memory.rs:110-161 | A rendered block that spells no sentinel has the shape the splice theorems ask for |
| RoundTrip.ExportingTwiceIsExportingOnce | crates/dent8-cli/src/memory.rs:355-380 | Exporting the same facts a second time leaves the file byte for byte |
| ExportedFiles.ExportedFileReadsBackIff | crates/dent8-cli/src/memory.rs:269-318 | Splice into a file without a block, in its own line ending, then import: what the file proposed before, followed by exactly the exported facts, if and only if the importer takes no fence of the file to be open (or none of `dent8`, and nothing was written) |
| ExportedFiles.RefreshedFileReadsBackIff | crates/dent8-cli/src/memory.rs:319-346 | Splice over an existing block, then import: what the lines above the block propose, exactly the new facts in place of the old, and what the lines below propose, under the same condition; also when END shares its line with a BEGIN |
| HiddenFence.ExportBehindAHiddenFenceIsLost | crates/dent8-cli/src/memory.rs:269-318 | A file with backticks between tildes: export appends to it, whatever the facts, and import then proposes nothing at all |
| SentinelValues.EndSentinelValueIsLost | crates/dent8-cli/src/memory.rs:598-606 | A fact whose value is the END sentinel: import proposes nothing, its first export creates the file, and the next export of the same fact is refused as stray sentinels |
| SentinelValues.TwoWordSourceIsLost | crates/dent8-cli/src/memory.rs:459-475 | A fact with the source `a b`, whatever its value, is proposed by no line of its block |
| SentinelValues.LineFeedInTheIdCutsTheReceipt | crates/dent8-cli/src/memory.rs:110-161 | The line of a fact whose id holds a line feed is cut there: the importer recovers the fact without authority and source |
| SentinelValues.NextExportIsRefusedIffASentinelIsSpelled | crates/dent8-cli/src/memory.rs:269-346 | After a create or append the next export of the same facts reproduces the file if nothing the block prints of them (subject, id, source, value) spells a sentinel, and is refused as stray sentinels if something does |
| Native.ExtractReceiptReferences | crates/dent8-cli/src/native.rs:413-433 | The nested loop over lines and offsets ends and pushes exactly the references of the tokens |
| Native.TokensCoverEveryReference | crates/dent8-cli/src/native.rs:413-433 | Tokens are disjoint and in increasing position, and every `dent8://` on the line lies inside one |
| Native.ReferencesAreWhereTheySay | crates/dent8-cli/src/native.rs:413-433 | Each reference stands on the line and at the byte column it gives, starts with the scheme, and goes up to the next character that no URI holds |
| Native.ReferenceParsesIff | crates/dent8-cli/src/native.rs:443-468 | A reference names exactly the three segments after its scheme, if there are three, none blank |
| Native.BlockReferencesEveryFact | crates/dent8-cli/src/native.rs:413-433 | Every fact written into a block is referenced, with its URI verbatim, whatever any of the facts hold: line endings and sentinels in names, sources and values included |
| Native.ReferenceNamesTheFactIffUnencoded | crates/dent8-cli/src/native.rs:443-468 | A reference to a fact URI names the percent-encoded segments; it names the fact itself if and only if its names need no encoding |
| Native.KeyWithASpaceIsMisread | crates/dent8-cli/src/native.rs:443-468 | The reference to the fact about `repo:a b` is taken to name `repo:a%20b` |
| FactLog.FoldFact | crates/dent8-store/src/lib.rs:116-141 | The per-fact fold, first failure ends it |
| FactLog.ReplayIsPerFact | crates/dent8-store/src/lib.rs:92-141 | Replaying the whole log and looking a fact up is replaying that fact's own stream |
| FoldMeaning.StreamFoldsIff | crates/dent8-core/src/state.rs:167-330 | A stream folds if and only if its events are well formed, it opens with an assertion and has no other, all are on one fact, subject and predicate, closes reach the asserted level, no canonical fact is contradicted, a reinforcing value is the asserted one, and nothing but audits follows a close |
| FoldMeaning.ReplayMeansTheEvents | crates/dent8-core/src/state.rs:84-330 | The state of a fact is what its events say: what the assertion said, unchanged; closed or contested as told, naming exactly the successor and rivals told of; as many pieces of evidence as were brought; and each source among the backers, or among the challengers survived, at a level exactly when it backed or lost at that level or above |
| FoldMeaning.LogReplaysIff | crates/dent8-store/src/lib.rs:92-141 | A log replays if and only if the stream of every fact folds |
| FoldMeaning.GoesStaleAsAsserted | crates/dent8-core/src/state.rs:132-165 | Whatever has happened to it since, a fact is stale exactly from the earlier of its asserted end of validity and the end of its TTL on, counted from the start of validity, else observation, else recording |
| Firewall.FirewallAdmitsIff | crates/dent8-store/src/firewall.rs:24-80 | The firewall admits an event if and only if it fits its fact's stream, bears a new id and, if it supersedes, names a fact of the log asserted at the superseded one's level or above; what it refuses an event for is the case |
| Firewall.BatchIsAdmittedIff | crates/dent8-store/src/memory.rs:51-93 | A batch goes in whole if and only if each of its events is admissible after the log and the events before it |
| Firewall.AdmittedLogLaundersNothing | crates/dent8-store/src/firewall.rs:24-80 | In a log let in event by event, no supersession hands a fact to an absent or a weaker one, and no id comes twice |
| FactLog.ApplyEach | crates/dent8-cli/src/ops.rs:1418-1431 | Applying a batch to the in-memory store stops at the first refusal |
| Batches.AppendedStoreIsTheFold | crates/dent8-store/src/memory.rs:51-93 | The projection kept incrementally by appends is always the replay of the log |
| Batches.IndependentBatch | crates/dent8-cli/src/ops.rs:1489-1519 | A batch over distinct facts goes through exactly when each event alone would, and each fact ends as its own event leaves it |
| Batches.ReplayIgnoresAttestations | crates/dent8-cli/src/main.rs:4603-4621 | Signing a batch does not change what it replays to |
| EventIds.EventNumberOfId | crates/dent8-cli/src/main.rs:4459-4471 | An event id reads back to the number it was minted from |
| EventIds.FactIdNumber | crates/dent8-cli/src/ops.rs:38-84 | Two minted fact ids are equal only if minted from the same number, whatever colons the names hold |
| Batches.MintedIdsAreFresh | crates/dent8-cli/src/main.rs:4459-4471 | No id from the next number on is in the log, also with foreign ids in it |
| FactIndex.BelievedFactIdsAreTheBelieved | crates/dent8-store/src/memory.rs:276-291 | The believed ids are sorted, distinct and exactly the believed facts of the pair |
| FactIndex.ExplainedFactIsPreferred | crates/dent8-store/src/memory.rs:315-337 | The fact explained is believed and, of the most preferred (unexpired contested, then unexpired, then expired), the first in fact-id order; none only when nothing is believed |
| OpEffects.RevisionEffect | crates/dent8-cli/src/ops.rs:1228-1272 | The revision batch applies exactly when the replacement is valid and its authority reaches every incumbent's, for any number of incumbents; then it replaces them all |
| OpEffects.ClosingEffect | crates/dent8-cli/src/ops.rs:1489-1519 | Retracting or expiring applies exactly when the authority reaches every incumbent's, and then closes them all |
| OpEffects.SupportEffect | crates/dent8-cli/src/ops.rs:1822-1885 | Reinforcing gives each believed fact of the pair one more piece of evidence and the source among its backers at the higher of its former level and this one; marking as used leaves each as it was; every other fact is untouched, and neither is ever refused by the store |
| OpEffects.ContradictionEffect | crates/dent8-cli/src/ops.rs:1948-1989 | A contradiction applies exactly when the opposing fact is valid and the incumbent is not Canonical; then the incumbent is Contested and names it |
| PolicyMeaning.PolicyAdmitsIff | crates/dent8-store/src/registry.rs:306-404 | What the policy answers to any event: nothing to one that asserts nothing; else, in this order, a level below the floor of the five pairs, a claim of more than 90 days (a week for a branch status or a dependency version, whose end of validity counts too), an unexpired other fact of one of the five, or nothing wrong |
| PolicyMeaning.DefaultsFillIn | crates/dent8-store/src/registry.rs:281-293 | The defaults give an asserted branch status without a TTL an hour and change nothing else |
| OpRequests.NewbornStandsAsAsked | crates/dent8-cli/src/ops.rs:195-208 | The state of a new fact: value, level, validity, backing and times as asked, and stale exactly from the end of validity on or when the lifetime asked for (an hour for a branch status without one) has passed since the start of validity, or since recording |
| OpOutcomes.AssertionOutcome | crates/dent8-cli/src/ops.rs:657-725 | An assertion goes through if and only if it is permitted, named, admitted by the scanner, its window open, and its level, lifetime and pair within the policy; it then adds one event, written out field by field from the request, whose fact stands as asked while every other fact is as it was |
| OpOutcomes.DerivationOutcome | crates/dent8-cli/src/ops.rs:767-854 | The same of a derivation, if and only if besides something is believed about its ground; its evidence is the speaker and then exactly the facts believed about that ground, in fact-id order |
| OpOutcomes.SupersessionOutcome | crates/dent8-cli/src/ops.rs:1284-1443 | A supersession goes through if and only if it is permitted, something is believed, the request reaches the level of all of it and the floor of the pair, and with the gate on no fact holds out; it adds the replacement, as asked, and one mark on each believed fact in fact-id order, and the replacement is then the only belief and every former one names it, its support unchanged |
| OpOutcomes.UnearnedExactlyWhenAFactHoldsOut | crates/dent8-cli/src/ops.rs:1330-1395 | With the entrenchment gate on, a supersession that is otherwise in order is refused as unearned if and only if some believed fact at the request's own level has two sources or more, among those whose events in the log asserted or reinforced it and those whose challenge it is recorded to have survived, at that level; the first such fact is named |
| OpOutcomes.ContradictionOutcome | crates/dent8-cli/src/ops.rs:1992-2074 | A contradiction goes through if and only if it is permitted, its window is open and the fact that is explained is not canonical, whatever its own level; it adds the opposing fact, as asked, and one mark on the explained one, which is then contested and names it besides those it named before |
| OpOutcomes.ClosingOutcome | crates/dent8-cli/src/ops.rs:1521-1687 | Retract and expire go through if and only if they are permitted, something is believed and the request reaches the level of all of it; each believed fact gets one mark and is closed as asked, nothing else about it changes, and nothing of the pair is believed |
| OpOutcomes.ReinforcementOutcome | crates/dent8-cli/src/ops.rs:1626-1654 | A reinforcement goes through if and only if it is permitted and something is believed; each believed fact of the pair then has one more piece of evidence and the source among its backers at the higher of its former level and the request's, every other backer unchanged |
| OpOutcomes.UseOutcome | crates/dent8-cli/src/ops.rs:1822-1885 | Marking as used goes through if and only if besides the decision is named; it leaves each fact but for when and by what it was last touched |
| OpTheorems.SupersessionFromBelowIsRefused | crates/dent8-cli/src/ops.rs:1284-1443 | A supersession from below the level of a believed fact is refused, whatever else the log holds, and the fact stays believed with its value |
| OpTheorems.RefusalOnlyRecordsSurvival | crates/dent8-cli/src/ops.rs:393-473 | A refused operation leaves the log as it was, but for at most one challenge record on the stream of a believed incumbent of that pair that held against it |
| OpRefusals.RefusalSaysWhy | crates/dent8-cli/src/ops.rs:289-298 | Every refusal of an operation is true, each error with its own condition on the request, the configuration and the log; nothing is refused past the gate for a failed signature, an unbacked supersession, laundered authority or a clash of ids |
| OpRefusals.ContestIsRecordedIff | crates/dent8-cli/src/ops.rs:328-473 | A refusal is put on record if and only if a believed fact held against the request, recording is on and the log still loads; the record is one event, written out: what was tried, by which fact, why it was lost, by whom and at which level; any other refusal leaves the log as it was |
| OpTheorems.AcceptedEventsAreAuthorizedAndAttested | crates/dent8-cli/src/ops.rs:289-298 | End to end: every event an accepted operation persists speaks for the requesting source at the requested level, which the registry authorizes; unsigned, nothing above Low is persisted; signed, each event carries an attestation that verifies, under the keyring as the operation's own signing left it, with a key whose grant a trusted issuer signed for that source, subject and level, unexpired and, where configured, active; the secret of that key, in the key file, has signed the content |
| OpTheorems.RunKeepsIdsDistinct | crates/dent8-cli/src/ops.rs:38-84 | No operation, accepted or refused, ever writes an event id twice |
| LogInvariants.LawfulStep | crates/dent8-cli/src/main.rs:4531-4556 | What keeps supersession lineage sound: every replacement is minted after the fact it replaces |
| Runs.RunKeepsLogWellKept | crates/dent8-cli/src/main.rs:4510-4587 | Every operation, accepted or refused, keeps the log lawful and every unexpired duplicate belief about a unique predicate accounted for |
| Runs.EveryReachableLogIsWellKept | crates/dent8-cli/src/main.rs:4510-4587 | The same for every run of assert, derive, supersede, retract, expire, reinforce, mark-used and contradict from the empty log |
| Runs.LawfulLineageIsSound | crates/dent8-cli/src/main.rs:4531-4556 | No supersession of such a log dangles or runs in a circle |
| LogInvariants.ContradictionKeepsNames | crates/dent8-cli/src/ops.rs:1948-1989 | Where no fact is named as contradictor by two contests, a contradiction keeps it so: it names only the fact it mints |
| Runs.ReloadFailsIffAContestWentStale | crates/dent8-cli/src/main.rs:4557-4587 | A log the program wrote fails its own reload check if and only if an expired belief names as its contradictor a fresh, uncontested belief that has a fresh rival |
| Runs.ReloadSucceedsWithoutStaleContests | crates/dent8-cli/src/main.rs:4557-4587 | With no expired contested belief about a unique predicate the log always reloads |
| StaleContest.DisputedStatusStopsLoading | crates/dent8-cli/src/main.rs:4557-4587 | A concrete run (assert with a one-hour validity, contradict twice, wait) after which the log no longer loads |
| ReloadCheck.WalkFrom | crates/dent8-store/src/lib.rs:291-319 | One successor walk with a growing path finds the cycle it runs into, and only true cycles |
| ReloadCheck.SupersessionCycleMembers | crates/dent8-store/src/lib.rs:291-319 | The walks together find exactly the facts on a supersession cycle |
| ReloadCheck.ValidateSubject | crates/dent8-cli/src/main.rs:4531-4587 | The check of one subject finds exactly dangling or cyclic supersessions and unaccounted duplicates |
| ReloadCheck.ValidateUniqueLog | crates/dent8-cli/src/main.rs:4510-4587 | The check of the whole log answers exactly whether every subject is sound |
| LogFiles.Rehydrate | crates/dent8-store/src/memory.rs:51-59 | Loading refuses a repeated event id (here) or a failing fold (in the check that follows, crates/dent8-cli/src/main.rs:4510-4587), and else gives the replayed store |
| LogFiles.LogFile.LoadStore | crates/dent8-cli/src/main.rs:3372-3412 | Loading the log is rehydration followed by the reload check |
| LogFiles.LogFile.AppendEvents | crates/dent8-cli/src/main.rs:4603-4652 | Signing in place, then appending all events; a signing failure appends none |
| LogFiles.LogFile.Commit | crates/dent8-cli/src/ops.rs:1418-1433 | A batch reaches the durable log whole, after it went through the in-memory store; a refused one may leave one challenge record |
| LogFiles.LogFile.PersistChallengeRecord | crates/dent8-cli/src/ops.rs:393-434 | Reload, mint, try in memory, then append one record; any failure leaves the log alone |
| LogFiles.BuildRevisionEvents | crates/dent8-cli/src/ops.rs:1228-1272 | The pushing loop builds the replacement followed by one supersession per incumbent, numbered in order |
| LogFiles.LogFile.OpAssert | crates/dent8-cli/src/ops.rs:657-725 | The steps of an assertion on the file change it as one run of the operation |
| LogFiles.RestOn | crates/dent8-cli/src/ops.rs:814-824 | The pushing loop adds one piece of evidence for each fact the derivation rests on, in order |
| LogFiles.LogFile.OpDerive | crates/dent8-cli/src/ops.rs:767-854 | The steps of a derivation change the file as one run of the operation |
| LogFiles.LogFile.OpSupersede | crates/dent8-cli/src/ops.rs:1284-1443 | The steps of a supersession change the file as one run of the operation |
| LogFiles.LogFile.OpContradict | crates/dent8-cli/src/ops.rs:1992-2074 | The steps of a contradiction change the file as one run of the operation |
| LogFiles.LogFile.OpPerIncumbent | crates/dent8-cli/src/ops.rs:1822-1885 | The steps of retract, expire, reinforce and mark-used change the file as one run of the operation |
| Concurrency.FinishingStepIsOneRun | crates/dent8-cli/src/ops.rs:485-516 | Whatever step an operation ends with under the lease, refused ones included, it has the effect of one whole sequential run of it on the log as it stands |
| Concurrency.ConcurrentWritersAreSerialized | crates/dent8-cli/src/ops.rs:557-635 | For any number of writers and any interleaving of acquire, gate, load, decide, append, reload, record, release and crash: the log is that of running exactly the operations that finished, each once and in the order in which they did, and what a crash cut short left no trace; at most one writer is under way, and its snapshot is the durable log until its own append |
| Concurrency.AnyOperationCanRun | crates/dent8-cli/src/ops.rs:485-516 | On a log nobody is at work on, any operation can be carried to its end and the lease let go, and the log is then that of the operation run alone |
| Concurrency.ConcurrentIdsStayDistinct | crates/dent8-cli/src/main.rs:4478-4504 | Event ids stay distinct in every reachable log |
| Concurrency.ConcurrentLogIsWellKept | crates/dent8-cli/src/main.rs:4510-4587 | Every log concurrent writers reach from the empty one is well kept, so the reload theorems apply to it |
| Framing.FramedDetermines | crates/dent8-cli/src/identity.rs:1968-1976 | Framed bytes determine both the domain tag and the body |
| Framing.DomainsAreDistinctTags | crates/dent8-cli/src/identity.rs:23 | Grant, session-challenge and attestation domains are three different tags of the form framing relies on |
| Hex.FromToHex | crates/dent8-cli/src/identity.rs:2394-2410 | Hex decoding undoes hex encoding |
| Hex.CaseDoesNotChangeHex | crates/dent8-cli/src/identity.rs:1479-1484 | Keys and signatures that compare equal ignoring ASCII case are the same bytes |
| IdentityProofs.GrantJsonIsInjective | crates/dent8-cli/src/identity.rs:1900-1929 | The serialized grant determines every field, including which optional ones are absent |
| IdentityProofs.SignedMessagesAreUnambiguous | crates/dent8-cli/src/identity.rs:1968-2002 | The bytes signed determine the grant or the challenge they stand for, and no grant, challenge and attestation message ever coincide |
| IdentityProofs.KeysAndSignaturesRead | crates/dent8-cli/src/identity.rs:2394-2410 | A key is read exactly from the hex of 32 bytes that are a valid key, a signature from the hex of 64, whatever whitespace stands around |
| IdentityProofs.ListedIsThisVeryGrant | crates/dent8-cli/src/identity.rs:1445-1478 | An active entry that passes for a grant, compared ignoring case, has the very bytes of its key and signature |
| IdentityProofs.WriteIsAdmittedIff | crates/dent8-cli/src/identity.rs:614-661 | A write is let in if and only if nothing is configured and it is at most Low, or there is a readable grant, of version 1, with a named source and decodable keys, unexpired, signed by a trusted issuer, for this source, at or above this level, whose scope is absent, `*` or this subject, listed as active where that is configured, and the key file holds its key |
| IdentityProofs.RefusalIsTheCase | crates/dent8-cli/src/identity.rs:614-661 | Each refusal of the identity gate is true, error by error |
| IdentityProofs.HelloIsAcceptedIff | crates/dent8-cli/src/identity.rs:2013-2058 | The daemon accepts a hello if and only if the presented grant is good, of the stated source, active where configured, and of the key that the daemon holds itself |
| IdentityProofs.AttestationIsValidIffSigned | crates/dent8-cli/src/identity.rs:818-839 | An attestation is valid if and only if the holder of the named key has signed the content of this very event and the stored signature is that one; it is unattested exactly when there is none |
| IdentityProofs.AlteredContentIsRefuted | crates/dent8-cli/src/identity.rs:818-839 | Content changed under a kept attestation is refuted, unless a holder of that key has signed the changed content too |
| IdentityProofs.AdmittedBatchIsAttested | crates/dent8-cli/src/identity.rs:778-839 | With the identity files unchanged, attesting an admitted batch succeeds and changes nothing but attestations; each event then names the key of the entitled grant, the secret in the key file is that key's and has signed the content, and its signature is the one stored |
| IdentityProofs.ReattestingChangesNothing | crates/dent8-cli/src/identity.rs:778-809 | Attesting a batch that is already attested, as an assertion does before its policy check and again at the commit, leaves its events as they are |
| Identity.AttestEvents | crates/dent8-cli/src/identity.rs:778-809 | The array is rewritten in place with the signed events, or left alone on an error |
| Identity.SignEach | crates/dent8-cli/src/identity.rs:791-807 | The loop replaces every event by the same event with a fresh attestation |
| IdentityProofs.ProveIsAcceptedIffChallengeWasSigned | crates/dent8-cli/src/identity.rs:2065-2081 | A prove is accepted if and only if the key the hello named signed exactly this challenge: that nonce, source, key and grant signature |
| IdentityProofs.HonestProveIsAccepted | crates/dent8-cli/src/identity.rs:2088-2104 | A client that signs with the granted key is always accepted |
| Handshake.ChallengedIff | crates/dent8-cli/src/mcp.rs:1019-1088 | A challenge is pending if and only if the last message was a welcome hello, and then it is that hello's, with its nonce, open for thirty seconds |
| Handshake.AuthenticatedIffEarned | crates/dent8-cli/src/mcp.rs:1090-1158 | Whatever messages arrive, a connection is authenticated if and only if some welcome hello was directly followed, in time, by the signature of the granted key on its nonce, and only proves have come since: a stray or replayed prove neither earns nor loses it |
| Handshake.DaemonConnection.Handle | crates/dent8-cli/src/mcp.rs:1000-1158 | One handshake message moves the connection's state and is answered as the state machine says |
| Handshake.ConnectWithIdentity | crates/dent8-cli/src/mcp_client.rs:177-231 | The client's hello and prove steps leave the daemon authenticated exactly when they return a session, for the grant's own source; they fail only for the reason they name: an unusable grant or key file, an unwelcome hello, or a prove that is late or by another key |
| EnvFile.EscapingIsUndone | crates/dent8-cli/src/main.rs:3349-3351 | Replacing each escaped quote group by a quote undoes the escaping, for every string: the leftmost scan stays aligned with the groups |
| EnvFile.UnquoteOfQuote | crates/dent8-cli/src/main.rs:2226-2233 | Unquoting a quoted value gives the value back |
| EnvFile.ParseDent8Env | crates/dent8-cli/src/main.rs:2267-2282 | The loop over lines builds the map the lines assign, a later line overriding an earlier one |
| EnvFile.ReadEnvFile | crates/dent8-cli/src/mcp_config.rs:351-370 | The strict reader either builds the same map, and then every line was readable, or names the first line that was not |
| EnvFile.AssignmentReadsBackIff | crates/dent8-cli/src/main.rs:2267-2282 | A key with a quoted value reads back, whatever the value, if and only if the key has no `=` in it, no `#` at its front and no whitespace at its ends |
| EnvFile.EnvFileReadsBack | crates/dent8-cli/src/main.rs:2267-2282 | A file of comments and quoted or plain assignments reads back to what it means, the last value for each key, when nothing in it holds a line feed |
| EnvFile.EnvFileReadsBackIff | crates/dent8-cli/src/main.rs:2267-2282 | With a key to each setting, it reads back if and only if no key or value holds a line feed |
| EnvFile.IdentityEnvReadsBackIff | crates/dent8-cli/src/identity/bundle.rs:461-477 | The identity environment file, for any paths, reads back to its five settings if and only if none of the four paths it assigns holds a line feed and the lines of the comment that names the file assign no other key (none, if that name has no line feed) |
| Retry.WithWriteRetry | crates/dent8-cli/src/ops.rs:485-516 | At most 32 attempts; the first settled result is returned at once; a run that never settles reports the last conflict; all sleeping together is at most 19197 ms |
| Retry.ExponentialTermDoubles | crates/dent8-cli/src/ops.rs:643-652 | The exponential term is one millisecond after the first failed attempt, doubles with each, and stays at 256 from the ninth on |
| Retry.DelayOfEachAttempt | crates/dent8-cli/src/ops.rs:643-652 | Each delay is its exponential term (one millisecond, doubling up to 256) and a jitter from nothing to twice that term: what the word mixed from this process and this attempt leaves over the odd number just above |
| Retry.DelaysAreBounded | crates/dent8-cli/src/ops.rs:643-652 | The delays of any run add up to at most 19197 ms |
| Retry.MixIsInjective | crates/dent8-cli/src/ops.rs:643-652 | No two processes mix to the same word on one attempt, and no process to the same word on two attempts |

## Left out

- Handshake.ConnectWithIdentity: socket errors and malformed replies are not modelled; the daemon always answers. That the session's key signed is proved on the daemon's side (Handshake.AuthenticatedIffEarned).
- ManagedBlock.ParseImportFile: proposals are modelled as the receipt they are built from; their serialization to proposal JSON is not.
- BlockImport.ExportThenImportIsTheIdentityIff: subject and fact id keep to one line; with a line feed in one, which lines there are depends on what stands around it. A fact without a source comes back with the source `-`, as the block writes it. Names are not empty, hashes are hexadecimal, and a JSON value is as the serializer leaves it.
- BlockImport.BlockInAFileReadsIff: the same names, and facts that a block alone would carry.
- SentinelValues.NextExportIsRefusedIffASentinelIsSpelled: subject, fact id and source keep to one line.
- RoundTrip.RenderedBlockIsABlock: the same, and nothing the block prints spells a sentinel.
- RoundTrip.ExportingTwiceIsExportingOnce: the same, for a first export that creates or appends; SpliceProofs.OneRefreshSettlesIffEndingStays settles refreshes.
- FactLog.FoldFact: confidence, actor and tool are left out, which no state holds; of a piece of evidence only its locator is kept.
- OpTheorems.AcceptedEventsAreAuthorizedAndAttested: identity files and registry are read once per operation and do not change between the gate and the append.
- Concurrency.ConcurrentWritersAreSerialized: the lease is a mutex that a crash releases; a crash in the middle of writing the file, and writers that do not take the lease, are not modelled.
- Retry.WithWriteRetry: an attempt's outcome is a function of its number; sleeping is the list of delays.
- Event numbers are unbounded; a number beyond the machine word, which the program would ignore when minting, is not modelled.
- File, socket, subprocess and database I/O, torn writes and corrupt log lines, permissions and keychains: files are values.
- The asynchronous backends and their id reservation and leases.
- Cryptography itself, the canonical bytes of an event (an arbitrary function of the event without its attestation), the hash chain and the witness.
- The content scanner is a yes or no, without the mark it may put on what it admits; clocks are parameters that do not run backwards within a run.
- Retrieval records, the taint analysis of derivations, what-if replay, conflicts listing and every other read-only command.
- Issuing, rotating and revoking grants and the bundle commands, beyond the active-grant check and the environment file.
- Command-line parsing, text and JSON presentation, doctor reports, hooks, patching of client configuration.
