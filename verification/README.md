# Partner-edge verification

A Dafny model of the parts of the partner edge whose correctness is hard to see from the code:

* **The obfuscation-params agent** (`crates/awg-params-agent`). It polls numbered epochs of wire
  parameters, merges them into the interface conf that an installer also writes, loads the conf into
  the kernel, and records the epoch it applied. The model has two layers.
  * *The merge*, at the level of text: the 25-row field table, parsing, validation and rendering of
    every field, the three sources of a value (epoch, conf line, generated default), the cross-field
    checks with the softening of an inverted junk pair, and the splice into the lines of the conf.
    `MergeMethod` is the imperative algorithm; `ConfMerge.Merge` is the function it computes; the
    theorems are about that function.
  * *The tick protocol*, as a state machine in which the agent, the installer, a timed-out `syncconf`
    and anyone else who loads the conf interleave freely, with every fallible operation able to fail
    and the process able to die at any point. `AgentLoop.Host` is the agent's code as methods that
    update the host's fields; every call is proved to be a run of the machine, so the theorems over
    all runs apply to it.
* **The temporal-layer cap** of the media server: a Schmitt trigger over bandwidth estimates.
* **The UDP send loop**: bogon filter, failure accounting, and log de-duplication with eviction.
* **The hand-written base64url codec** (section 5 of RFC 4648) and the public-key check built on it.
* **The shell env-file writer**, against a reader for the quoting rules of sections 2.2.1 and 2.2.2 of
  the POSIX Shell Command Language.
* **The tenant pipeline**: validation, rendering to proxy routes, shape check, and route diff.

`dafny verify dfyconfig.toml` checks the whole project.

## How to read the results

The merge and the protocol:

* What is checked is what is written. The checks run on a map of resolved values, but
  `MergeTheorems.WrittenConfIsSafe` speaks of the text: reading every field back from the lines that
  were written gives values that satisfy all four preconditions.
* `MergeStability.Idempotent` holds byte for byte and across restarts: the second merge may draw any
  defaults. `TopUps.TopUpIsHarmless` adds top-ups in between, and `AgentTheorems.HarmlessRetry` carries
  both to whole runs.
* `AgentHistory.SavedEpochIsLoaded` is an equivalence over the events of a run. The epoch that was saved is
  the one the kernel loaded exactly when the installer did not write between the re-stat and the strip.
  The window that the code documents
  is real: `AgentTheorems.WindowReachable` reaches it from every start and `EpochAcceptance.WindowExists`
  from a concrete host.
* `EpochAcceptance.AcceptedIff` is an equivalence too: the epochs that are consistent in themselves are
  exactly those that no conf with an interface section can block. `EpochAcceptance.LandsAfterAnyRun`
  takes them through a tick on any host, whatever has happened to it before.
* `TopUps.TopUpVerdict` says exactly when a params-less top-up succeeds. It can fail on a conf that
  carries only one junk bound, because the default drawn for the other may cross it;
  `ConfWitnesses.TopUpFails` gives a conf on which it fails for every draw.

What the definitions mean, where the algorithms and their specifications share them:

* The field table and the validators are tied to texts and numbers: `MergeReport.WireLines` and its
  companions equate fields of the epoch with literal lines of the conf, `EpochBounds.SoundIsConsistent`
  gives the accepted epochs in numbers, and `TagGrammar` and `HeaderKeys` the accepted texts.
* `MergeReport.ReportIs` reads the dropped list off the epoch, and `EpochBounds` names the fields in it.
* `RouteMeaning` reads the rendered routes by their keys, `TenantFormats` takes the two patterns of the
  validator piece by piece, and `ErrorOrder.ErrorsInOrder` puts the failing checks in order.
* `Base64Bits` compares texts and bytes bit by bit, in the literal alphabet.

Conditions under which a property holds, where the code does not give it on every input:

* A missing estimate lifts the temporal-layer cap for nothing. `TemporalCap.HysteresisBound` and
  `TemporalCap.UncapBound` hold of every run and all rails, with a correction for the estimates that are
  missing under a cap. `TemporalCap.BoundedIff` says when the correction can be left out: if and only if
  the missing estimates all come before the first one that is there (or both rails are zero).
  `TemporalCap.MissingEstimatesAreFree` is a run without any budget variation that uncaps twice.
* `Base64Url.ReencodeIffCanonical`: decoding accepts non-canonical spellings, so re-encoding gives the
  input back exactly when the unused low bits of the last symbol are zero and the length is possible.
  `Base64Url.NonCanonical` gives two texts of one byte.
* `Params.DocumentRoundTrip`: a range with a negative lower bound does not survive serialisation, because
  its minus sign is read as the separator. The validators refuse such ranges.
* `TenantRoutes.NoRouteLost`: keying rendered routes by id loses none exactly when no enabled tenant has
  two different redirects for one host, which validation does not check.

Decisions taken where the source leaves a choice:

* `s1 + 56` is `i64` arithmetic without a range check for values that come from the conf. The model
  wraps modulo 2^64, as a build without overflow checks does; the theorems state the mathematical
  inequality.
* The header-protection key is decoded by a library in the source. `Base64Std` models the standard
  alphabet of section 4 of RFC 4648 with mandatory padding and zero trailing bits.
* Numbers in an epoch are unbounded integers; the validators bound them.
* A file identity is a number that every rename makes new. A conf is the pair of its text and identity.
* A `syncconf` that outlives its timeout is a *straggler*: it may load the conf it was given at any later
  moment, or the part of it that had reached its input, and these are steps of the machine.
* The comment on the env-file guard speaks of double-quoted values and of later lines being read as
  assignments. The code quotes with single quotes, where a newline is literal, so
  `EnvFile.EnvRoundTrip` needs no guard; the guard is what gives one line per pair (`EnvFile.TenLines`).
  A NUL is the one character that the file can carry and a shell variable cannot.

## Model

| member | source | states |
|---|---|---|
| `Params.ParseOfShowIntOrRange` | crates/awg-params-agent/src/params.rs:119-131 | the spelling of a number or range parses back to it if and only if the first number is not negative, and to nothing otherwise |
| `Params.DocumentRoundTrip` | crates/awg-params-agent/src/params.rs:134-163 | serialising and deserialising gives every single number back, and a range exactly when its lower bound is not negative |
| `Params.ValidateITag` | crates/awg-params-agent/src/params.rs:245-323 | the scanning loop accepts a value if and only if it is empty or free text interleaved with well-formed tags, at least one of them, and without a forbidden character |
| `Params.ScanLoop` | crates/awg-params-agent/src/params.rs:260-322 | the loop over the unread rest and the tag flag terminates with the verdict of the recursive scan |
| `Params.SentenceScans` | crates/awg-params-agent/src/params.rs:260-322 | every sentence of the grammar is accepted exactly when it has a tag |
| `Params.ScanHasSentence` | crates/awg-params-agent/src/params.rs:260-322 | every accepted value can be cut into the pieces of a sentence |
| `Params.ITagIsGrammar` | crates/awg-params-agent/src/params.rs:245-323 | acceptance and the declarative grammar coincide on all strings |
| `Params.ITagConcat` | crates/awg-params-agent/src/params.rs:245-323 | the accepted language is closed under concatenation |
| `TagGrammar.BareTag` | crates/awg-params-agent/src/params.rs:275-314 | a tag without an argument is accepted for the keys t, d and ds and for no other |
| `TagGrammar.ArgumentTag` | crates/awg-params-agent/src/params.rs:275-314 | those three keys ignore an argument, as long as it has no line break and no section bracket; no other key beyond the lengths and b accepts one |
| `TagGrammar.LengthTag` | crates/awg-params-agent/src/params.rs:297-311 | r, rc, rd and dz take every decimal number up to 65535 and none above, with or without a plus sign |
| `TagGrammar.LengthIsDigits` | crates/awg-params-agent/src/params.rs:297-311 | they take nothing but an optional plus sign and digits |
| `TagGrammar.HexTag` | crates/awg-params-agent/src/params.rs:284-296 | b takes exactly the non-empty even runs of hex digits, with or without 0x |
| `TagGrammar.RangeText` | crates/awg-params-agent/src/params.rs:365-385 | a range value is exactly one number within 64 bits, or two of them in order with a hyphen between |
| `HeaderKeys.KeyText` | crates/awg-params-agent/src/params.rs:392-412 | a header-protection key is 43 symbols of the literal alphabet, the last one of sixteen, and one padding character |
| `HeaderKeys.InactiveKey` | crates/awg-params-agent/src/params.rs:419-424 | every text counts as active but one, 43 letters A and the padding character |
| `FieldSpecs.TableComplete` | crates/awg-params-agent/src/conf_merge.rs:271-500 | the table has a row for each of the 25 keys |
| `FieldSpecs.DefaultOf` | crates/awg-params-agent/src/conf_merge.rs:271-500 | only client-side fields have a generated default |
| `FieldSpecs.MatchUnique` | crates/awg-params-agent/src/conf_merge.rs:506-518 | a line matches the pattern of at most one key |
| `FieldSpecs.Owner` | crates/awg-params-agent/src/conf_merge.rs:506-518 | the owner of a line is the one key whose pattern it matches |
| `FieldSpecs.HeaderUnowned` | crates/awg-params-agent/src/conf_merge.rs:506-522 | a section header belongs to no key |
| `FieldSpecs.RenderMatches` | crates/awg-params-agent/src/conf_merge.rs:233-243 | a rendered line belongs to its own key, and the capture is the spelled value |
| `FieldSpecs.RoundTrip` | crates/awg-params-agent/src/conf_merge.rs:172-243 | for every row and every value its validator accepts, rendering, matching and parsing gives the value up to the stated normalisation, and no other row matches the line |
| `FieldSpecs.RenderOneLine` | crates/awg-params-agent/src/conf_merge.rs:196-243 | a validated value never renders to more than one line |
| `ConfMerge.PassOne` | crates/awg-params-agent/src/conf_merge.rs:681-756 | a written line renders a valid value, a kept key has the value of its conf line, replaces happen only on present keys and inserts only on absent ones, and only must-match fields are rejected |
| `ConfMerge.FinalRow` | crates/awg-params-agent/src/conf_merge.rs:834-888 | softening preserves all of that and rejects nothing |
| `SpliceProofs.RawIsFirst` | crates/awg-params-agent/src/conf_merge.rs:684-688 | the lookup reads the first line of the key |
| `SpliceProofs.RewriteOwner` | crates/awg-params-agent/src/conf_merge.rs:894-900 | rewriting a line never changes whose line it is |
| `SpliceProofs.SelectRewritten` | crates/awg-params-agent/src/conf_merge.rs:894-900 | the rewrite replaces every line of a replaced key and no other |
| `SpliceProofs.SelectSpliced` | crates/awg-params-agent/src/conf_merge.rs:890-937 | the lines of each key after the splice: kept, all rewritten, or one inserted |
| `MergeTheorems.MergedLines` | crates/awg-params-agent/src/conf_merge.rs:890-940 | the lines of the returned text are the spliced lines, so no value smuggles in a line break |
| `MergeTheorems.ReadBack` | crates/awg-params-agent/src/conf_merge.rs:665-940 | reading a key back from the spliced lines gives its resolved value, normalised if it was written |
| `MergeTheorems.NormAlike` | crates/awg-params-agent/src/conf_merge.rs:172-243 | normalisation never changes what the checks see |
| `MergeTheorems.OverlapIsFirst` | crates/awg-params-agent/src/conf_merge.rs:789-809 | no pair of H fields overlaps before the reported one in the order of the loops, and none at all if none is reported |
| `MergeTheorems.WireAgrees` | crates/awg-params-agent/src/conf_merge.rs:665-940 | the quantities the checks ran on are those read from the written lines |
| `MergeTheorems.CheckedIsSafe` | crates/awg-params-agent/src/conf_merge.rs:766-888 | passing the checks, with wrapping arithmetic, gives the four preconditions over the integers |
| `MergeTheorems.WrittenConfIsSafe` | crates/awg-params-agent/src/conf_merge.rs:665-940 | every text a merge returns satisfies S1+56 ≠ S2, pairwise disjoint H ranges, active key implies S ≥ 12, and Jmin ≤ Jmax |
| `MergeStability.SettledIsFixed` | crates/awg-params-agent/src/conf_merge.rs:890-937 | on a settled conf the splice changes nothing |
| `MergeStability.SettledAnyDefaults` | crates/awg-params-agent/src/conf_merge.rs:575-590 | being settled does not depend on the defaults that are drawn |
| `MergeStability.SettledMerges` | crates/awg-params-agent/src/conf_merge.rs:665-940 | merging into a settled conf succeeds and returns it |
| `MergeStability.PassOneAgain` | crates/awg-params-agent/src/conf_merge.rs:681-756 | the first pass over the merged lines drops the same fields, resolves to alike values and inserts nothing new |
| `MergeStability.FinalAgain` | crates/awg-params-agent/src/conf_merge.rs:834-888 | the same after softening |
| `MergeStability.MergeSettles` | crates/awg-params-agent/src/conf_merge.rs:665-940 | one merge settles a conf, with the same dropped list |
| `MergeStability.Idempotent` | crates/awg-params-agent/src/conf_merge.rs:665-940 | merging the same epoch, or none, into a merge's result returns the same text and dropped list whatever defaults are drawn the second time |
| `TopUps.TopUpKeepsSettled` | crates/awg-params-agent/src/conf_merge.rs:732-756 | a params-less merge leaves a settled conf settled for its epoch |
| `TopUps.MergeIsStable` | crates/awg-params-agent/src/agent.rs:468-480 | after a merge the same epoch has nothing more to write |
| `TopUps.StableMerges` | crates/awg-params-agent/src/agent.rs:468-480 | on such a conf the merge succeeds with the identical text for all defaults |
| `TopUps.TopUpIsHarmless` | crates/awg-params-agent/src/agent.rs:324-387 | a successful top-up keeps that, even when it inserts defaults |
| `TopUps.TopUpVerdict` | crates/awg-params-agent/src/conf_merge.rs:732-888 | a params-less merge succeeds if and only if the conf's own must-match values pass, the junk bounds it leaves are in order, and a section exists when a default is missing |
| `ConfWitnesses.OneBound` | crates/awg-params-agent/src/conf_merge.rs:868-880 | with the lower junk bound alone in the conf, the top-up fails for every value above the upper bound that is drawn |
| `ConfWitnesses.TopUpFails` | crates/awg-params-agent/src/conf_merge.rs:868-880 | a two-line conf whose top-up fails whatever defaults are drawn |
| `MergeFrame.SpliceFrame` | crates/awg-params-agent/src/conf_merge.rs:890-937 | the output is the input with lines of replaced keys rewritten canonically plus one block after the first interface header, in table order and only for absent keys |
| `MergeFrame.UnownedKept` | crates/awg-params-agent/src/conf_merge.rs:890-937 | every line outside the table survives, in order |
| `MergeFrame.Provenance` | crates/awg-params-agent/src/conf_merge.rs:681-937 | an owned line of the output was in the input, renders a valid epoch value, or renders a valid client-side default of a key the epoch leaves open |
| `MergeFrame.MustMatchProvenance` | crates/awg-params-agent/src/conf_merge.rs:681-937 | a must-match line of the output was in the input or renders a valid epoch value |
| `MergeFrame.TopUpKeepsMustMatch` | crates/awg-params-agent/src/conf_merge.rs:732-756 | a params-less merge leaves the lines of every must-match key identical |
| `MergeFrame.KeyOutcome` | crates/awg-params-agent/src/conf_merge.rs:690-756 | the lines of each key by source: a refused or taken-back epoch value leaves them untouched and never triggers the default |
| `MergeFrame.NonInterference` | crates/awg-params-agent/src/conf_merge.rs:681-937 | two epochs that differ in one client-side field other than the junk bounds give the same verdict, the same lines of every other key and the same other drops |
| `MergeReport.ReportIs` | crates/awg-params-agent/src/conf_merge.rs:690-867 | the dropped list of every successful merge: the refused client-side fields of the epoch, each once and in table order, then the junk bounds taken back |
| `MergeReport.ReportCounts` | crates/awg-params-agent/src/conf_merge.rs:681-867 | how often each key is in it: once if the epoch offers an invalid value, once more for a valid junk bound of the epoch in an inverted pair, and never without an epoch |
| `MergeReport.WireLines` | crates/awg-params-agent/src/conf_merge.rs:271-420 | after every successful merge each size and each H range of the epoch is on every line of its literal name, spelled as the field of the record, and there is such a line |
| `MergeReport.SwitchLines` | crates/awg-params-agent/src/conf_merge.rs:421-500 | the same for the key and the two switches, each under its own literal name as on or off |
| `MergeReport.TagLines` | crates/awg-params-agent/src/conf_merge.rs:271-500 | the same for the five tags, where they pass the tag validator |
| `MergeReport.RangeLines` | crates/awg-params-agent/src/conf_merge.rs:271-500 | the same for the six range strings, where they pass the range validator |
| `MergeReport.JunkLines` | crates/awg-params-agent/src/conf_merge.rs:843-867 | the same for the junk counts in range, the two bounds exactly as long as the first-pass pair is in order or not the epoch's |
| `MergeReport.DefaultLines` | crates/awg-params-agent/src/conf_merge.rs:732-756 | a params-less merge writes each of the five generated defaults under its literal name where the conf has no line of that name |
| `MergeMethod.FindRaw` | crates/awg-params-agent/src/conf_merge.rs:684-687 | the search over the lines finds the first match |
| `MergeMethod.ResolveField` | crates/awg-params-agent/src/conf_merge.rs:684-753 | one turn of the loop computes the row of its key |
| `MergeMethod.ResolveFields` | crates/awg-params-agent/src/conf_merge.rs:676-756 | the loop over the table ends with the map, the two lists and the drops of all rows, or with the first rejected field |
| `MergeMethod.FindOverlap` | crates/awg-params-agent/src/conf_merge.rs:789-809 | the nested loops find the first overlapping pair |
| `MergeMethod.CheckResolved` | crates/awg-params-agent/src/conf_merge.rs:766-823 | the checks on the map give the error of the checks on the resolved values |
| `MergeMethod.Soften` | crates/awg-params-agent/src/conf_merge.rs:843-867 | removing from the lists and re-resolving in the map has the effect of taking the epoch-sourced members back |
| `MergeMethod.ReplaceLines` | crates/awg-params-agent/src/conf_merge.rs:896-899 | every line that matches the key, and no other, becomes the new line |
| `MergeMethod.RewriteLines` | crates/awg-params-agent/src/conf_merge.rs:894-900 | the replacements one after the other equal all of them at once |
| `MergeMethod.HeaderKept` | crates/awg-params-agent/src/conf_merge.rs:914-920 | the rewrites do not move the first interface header |
| `MergeMethod.SpliceAtHeader` | crates/awg-params-agent/src/conf_merge.rs:924-935 | inserting at a text offset equals inserting lines after the header line |
| `MergeMethod.Splice` | crates/awg-params-agent/src/conf_merge.rs:894-939 | the loops build the spliced text, or fail exactly when there is something to insert and no header |
| `MergeMethod.MergeReporting` | crates/awg-params-agent/src/conf_merge.rs:665-940 | the whole imperative merge, with every early return, computes the merge function |
| `Defaults.RandInclusive` | crates/awg-params-agent/src/conf_merge.rs:596-602 | a draw lies in its band |
| `Defaults.Generate` | crates/awg-params-agent/src/conf_merge.rs:575-590 | generation succeeds exactly when every draw does, with every field in its band and taken from its own draw |
| `Defaults.BandIsDrawn` | crates/awg-params-agent/src/conf_merge.rs:575-602 | the bands are exactly what can be drawn |
| `Defaults.TagOfOk` | crates/awg-params-agent/src/conf_merge.rs:575-590 | the generated tag passes the tag validator for every length |
| `Defaults.RangeOfOk` | crates/awg-params-agent/src/conf_merge.rs:575-590 | the generated range passes the range validator |
| `Defaults.InBandPass` | crates/awg-params-agent/src/conf_merge.rs:575-590 | generated defaults always pass the validators of their own rows |
| `AgentInvariants.KeepsLock` | crates/awg-params-agent/src/agent.rs:411-498 | every step keeps: the agent holds the lock exactly inside the critical section |
| `AgentInvariants.KeepsVersions` | crates/awg-params-agent/src/agent.rs:482-491 | every step keeps: an identity determines its conf |
| `AgentInvariants.KeepsGate` | crates/awg-params-agent/src/agent.rs:152-162 | every step keeps: an epoch past the gate is newer than the state file, and only a save moves the state file |
| `AgentInvariants.KeepsKernel` | crates/awg-params-agent/src/agent.rs:655-729 | every step keeps: the kernel and every straggler hold a conf that was on disk |
| `AgentInvariants.KeepsTick` | crates/awg-params-agent/src/agent.rs:177-255 | every step keeps what the tick knows at each point about its read, its identity and the writes since |
| `AgentInvariants.KeepsUnowned` | crates/awg-params-agent/src/agent.rs:411-498 | every step keeps: the foreign lines on disk are those of the last installer write |
| `AgentInvariants.KeepsProvenance` | crates/awg-params-agent/src/agent.rs:411-498 | every step keeps: a must-match line on disk is the installer's or a merged epoch's |
| `AgentInvariants.KeepsSaves` | crates/awg-params-agent/src/agent.rs:250-255 | every step keeps: the log of saves increases, ends at the state file and describes what was loaded |
| `AgentInvariants.RunKeepsInv` | crates/awg-params-agent/src/agent.rs:112-263 | all of these hold in every state of every run |
| `AgentTheorems.NoLostUpdate` | crates/awg-params-agent/src/agent.rs:411-498 | in every interleaving the foreign lines on disk equal those of the latest installer write |
| `AgentTheorems.ReadIsCurrent` | crates/awg-params-agent/src/agent.rs:427-484 | the conf the agent merges is still the conf on disk when it renames |
| `AgentTheorems.VersionWasOnDisk` | crates/awg-params-agent/src/agent.rs:605-637 | every recorded conf was on disk at some point of the run |
| `AgentTheorems.KernelIsWhole` | crates/awg-params-agent/src/agent.rs:655-729 | what the kernel runs is always one complete conf that was on disk at some point of the run |
| `AgentTheorems.ApplyUnlocked` | crates/awg-params-agent/src/agent.rs:197-235 | the agent never holds the lock from the supersede guard to the save |
| `AgentTheorems.SavesIncrease` | crates/awg-params-agent/src/agent.rs:152-255 | saved epochs strictly increase over the run and the state file holds the last |
| `AgentTheorems.EpochGate` | crates/awg-params-agent/src/agent.rs:144-263 | a save raises the applied epoch; every other step, including every skip and error, leaves it |
| `AgentTheorems.WindowReachable` | crates/awg-params-agent/src/agent.rs:197-235 | from every start, with the lock free or with the installer, with every epoch that merges and every text, a run saves the epoch while the kernel loads an installer write made after the guard |
| `AgentTheorems.TickCompletes` | crates/awg-params-agent/src/agent.rs:144-263 | undisturbed, a newer epoch that merges ends on disk, in the kernel and in the state file, with the lock free |
| `AgentTheorems.StableRun` | crates/awg-params-agent/src/agent.rs:324-387 | top-ups, retries, failures and restarts without an installer write keep the epoch's conf stable |
| `AgentTheorems.HarmlessRetry` | crates/awg-params-agent/src/agent.rs:468-480 | after an epoch was written, a retry in any such run, even after a restart with new defaults, renames nothing and keeps the identity |
| `AgentHistory.MergedWasPolled` | crates/awg-params-agent/src/agent.rs:146-178 | an epoch that counts as merged was merged after the installer's last write, in the tick whose poll delivered it |
| `AgentHistory.DiskProvenance` | crates/awg-params-agent/src/agent.rs:411-498 | over whole runs a must-match line on disk comes from the latest installer write, or renders a valid value of an epoch that the run polled and merged after that write |
| `AgentHistory.History` | crates/awg-params-agent/src/agent.rs:144-263 | every record of the log is the account of one tick of the run: where it polled the epoch, read the conf, re-stated it and stripped it, and what was on disk there |
| `AgentHistory.WritesCount` | crates/awg-params-agent/src/agent.rs:207-211 | between re-stat and strip only others act, and the write count moves exactly when the installer writes |
| `AgentHistory.SavedEpochIsLoaded` | crates/awg-params-agent/src/agent.rs:177-255 | for every saved epoch the run has a tick that polled it, and the merge of its params into the conf that tick read is what the kernel got at the strip if and only if the installer did not write since the re-stat; it is then safe and stable, and otherwise a newer conf was loaded |
| `EpochAcceptance.WireOfEpoch` | crates/awg-params-agent/src/conf_merge.rs:690-699 | for a valid epoch with ordered junk bounds the checks see its own values, whatever the conf holds |
| `EpochAcceptance.AcceptedEverywhere` | crates/awg-params-agent/src/conf_merge.rs:665-940 | a self-consistent epoch merges into every conf that has an interface section, under every draw of defaults and whatever its other client-side fields are |
| `EpochAcceptance.BlockedSomewhere` | crates/awg-params-agent/src/conf_merge.rs:665-940 | for every other epoch there is such a conf on which it fails, under every draw |
| `EpochAcceptance.AcceptedIff` | crates/awg-params-agent/src/conf_merge.rs:665-940 | an epoch merges into every conf with an interface section if and only if it is self-consistent |
| `EpochBounds.SoundIsConsistent` | crates/awg-params-agent/src/params.rs:325-424 | the self-consistent epochs in numbers and texts: sizes up to 65535, H ranges between 5 and 2^32-1 and apart, S1+56 other than S2, a well-formed key that is off or sizes of 12 and more, and ordered junk bounds below 2^32 |
| `EpochBounds.WireBounds` | crates/awg-params-agent/src/conf_merge.rs:690-724 | no epoch with a size, H range or key out of these bounds gets into any conf |
| `EpochBounds.RefusedCounts` | crates/awg-params-agent/src/conf_merge.rs:690-731 | a count outside 32 bits is reported as dropped; the cookie switch and the must-match fields, by name, never are |
| `EpochBounds.RefusedTags` | crates/awg-params-agent/src/conf_merge.rs:690-731 | each tag is reported as dropped exactly when it is given and malformed |
| `EpochBounds.RefusedRanges` | crates/awg-params-agent/src/conf_merge.rs:690-731 | the same for each range string |
| `EpochAcceptance.EpochLands` | crates/awg-params-agent/src/agent.rs:144-263 | an undisturbed tick brings such an epoch to the disk, the kernel and the state file of every host, as a safe conf |
| `EpochAcceptance.LandsAfterAnyRun` | crates/awg-params-agent/src/agent.rs:112-263 | after every run that ends idle with a free lock, if the installer's last conf had an interface section, an undisturbed tick lands every self-consistent newer epoch, as a safe conf that still has the installer's foreign lines |
| `EpochAcceptance.PlainEpoch` | crates/awg-params-agent/src/params.rs:328-358 | self-consistent epochs exist |
| `EpochAcceptance.WindowExists` | crates/awg-params-agent/src/agent.rs:197-235 | for every text there is a run from a fresh host that saves an epoch while the kernel runs that text |
| `AgentLoop.Host.constructor` | crates/awg-params-agent/src/agent.rs:94-110 | a new host is an initial state of the machine |
| `AgentLoop.Host.Interfere` | lib/install-awg.sh:430-441 | the requests of others are served in order, each exactly when it can be, and none writes while the agent holds the lock |
| `AgentLoop.Host.AcquireLock` | crates/awg-params-agent/src/agent.rs:840-867 | the polling loop gets the lock if and only if the file can be locked and, at one of its attempts, what others have done until then leaves the lock free; it then holds it in the state of the first such attempt |
| `AgentLoop.ReleasedInTime` | crates/awg-params-agent/src/agent.rs:851-865 | a lock that another holder releases before the last attempt is acquired |
| `AgentLoop.Host.MergeAndWriteLocked` | crates/awg-params-agent/src/agent.rs:411-498 | every path releases the lock, and nothing happens to the conf without it; success reports the identity and whether the text changed |
| `AgentLoop.Host.CriticalSection` | crates/awg-params-agent/src/agent.rs:427-498 | whatever others attempt meanwhile, the disk ends with the merge of what it held at the start, under a new identity if and only if the text changed |
| `AgentLoop.Host.MergeUnderLock` | crates/awg-params-agent/src/agent.rs:437-484 | the merge of the text that was read is renamed into place exactly when it succeeds and differs, and every failure releases the lock |
| `AgentLoop.Host.Guard` | crates/awg-params-agent/src/agent.rs:212-232 | the apply goes on exactly when the re-stat works and the identity is the captured one, and for a top-up only when it changed the conf |
| `AgentLoop.Host.ApplyToKernel` | crates/awg-params-agent/src/agent.rs:655-729 | success is exactly a good strip and a good sync, and the kernel then runs the conf that was on disk at the strip |
| `AgentLoop.Host.SaveState` | crates/awg-params-agent/src/state.rs:32-53 | the state file becomes the epoch or stays, and the log gains its record or stays |
| `AgentLoop.Host.ApplyAndSave` | crates/awg-params-agent/src/agent.rs:212-255 | the half of the tick behind the lock saves only after guard, strip and sync all succeeded; if every operation works and nobody writes, it saves, and the kernel runs the conf on disk unless others loaded something |
| `AgentLoop.Host.GateSteps` | crates/awg-params-agent/src/agent.rs:152-162 | a tick goes on exactly when the state loads and the epoch is newer |
| `AgentLoop.Host.Tick` | crates/awg-params-agent/src/agent.rs:144-263 | for all interference and failures the tick is a run of the machine that ends idle and unlocked and moves the state file only to a newer epoch, after it got the lock and every operation succeeded; if the lock comes free in time, every operation works and nobody writes, it saves exactly when the merge succeeds, with that text on disk and, unless others load something, in the kernel |
| `AgentLoop.Host.StartupTopUp` | crates/awg-params-agent/src/agent.rs:324-387 | the top-up never touches the state file; under the same conditions it loads the merge when that changed the conf and otherwise changes nothing |
| `AgentLoop.HostInvariant` | crates/awg-params-agent/src/agent.rs:112-142 | whatever calls were made, the host satisfies the invariant of the machine |
| `TemporalCap.Subscriber.EffectiveCap` | crates/sfu/src/client/fanout.rs:33-35 | the effective cap is the smaller of the two |
| `TemporalCap.Subscriber.SelectTemporalCap` | crates/sfu/src/client/fanout.rs:60-93 | the new cap is the transition of the trigger, and the structure cache is cleared exactly when the effective cap engages |
| `TemporalCap.Subscriber.SetClientCap` | crates/sfu/src/client/mod.rs:418-450 | the same clearing rule for the client's own cap |
| `TemporalCap.Subscriber.Drive` | crates/sfu/src/client/fanout.rs:60-93 | a sequence of estimates leaves the cap of the run function |
| `TemporalCap.TogglesAtRails` | crates/sfu/src/client/fanout.rs:74-82 | for all rails, an uncapped subscriber is capped below one estimate and a capped one uncapped from another on |
| `TemporalCap.CrossedRails` | crates/sfu/src/client/fanout.rs:71-82 | rails that meet or cross leave no hysteresis: the cap follows from the last estimate alone |
| `TemporalCap.Paid` | crates/sfu/src/client/fanout.rs:60-93 | in every run every toggle that is charged has been paid for by budget variation, with what the current level has already paid towards the next |
| `TemporalCap.HysteresisBound` | crates/sfu/src/client/fanout.rs:60-93 | over every run and all rails, each toggle but the first costs one band of variation, except for two at each estimate that is missing under a cap |
| `TemporalCap.UncapsAndToggles` | crates/sfu/src/client/fanout.rs:60-93 | toggles and uncaps alternate |
| `TemporalCap.EarnedOrFree` | crates/sfu/src/client/fanout.rs:74-82 | every uncap is made by an estimate or given away by a missing one |
| `TemporalCap.UncapBound` | crates/sfu/src/client/fanout.rs:60-93 | over every run and all rails, the uncaps that no missing estimate gave away, times the band, are at most the total variation of the estimates that are there |
| `TemporalCap.BoundedIff` | crates/sfu/src/client/fanout.rs:60-93 | all uncaps are bounded so, for all estimates with given gaps, if and only if the gaps precede every estimate or the rails never cap |
| `TemporalCap.ReachableCaps` | crates/sfu/src/client/fanout.rs:60-93 | only 0, 1 and uncapped occur, and 0 is left only for uncapped |
| `TemporalCap.CapLevel` | crates/sfu/src/client/fanout.rs:75-82 | the cap after every run that starts uncapped: 0 if and only if some estimate fell below the lower rail and none since was missing or reached the exit rail, 1 if and only if none did so but one fell below the upper rail in that way, and uncapped otherwise |
| `TemporalCap.NextCapMonotone` | crates/sfu/src/client/fanout.rs:60-93 | one step is monotone in cap and budget |
| `TemporalCap.RunMonotone` | crates/sfu/src/client/fanout.rs:60-93 | pointwise larger budgets from a larger cap end in a larger cap, for runs of any length |
| `TemporalCap.MissingEstimatesAreFree` | crates/sfu/src/client/fanout.rs:76-76 | a run with missing estimates and no variation whose two uncaps exceed the uncorrected bound |
| `SendLoop.Loop.Flush` | crates/sfu/src/udp_loop.rs:471-518 | the queue ends empty, the socket sees the routable transmits, every drop and every failure is counted under its label, and the map and the warnings are those of the failures in order |
| `SendLoop.Loop.Iterate` | crates/sfu/src/udp_loop.rs:208-222 | after the eviction every entry is younger than six windows |
| `SendLoop.Loop.Serve` | crates/sfu/src/udp_loop.rs:176-222 | the loop's map and warnings over many iterations are those of the run functions |
| `SendLoop.BogonBlocks4` | crates/sfu/src/udp_loop.rs:393-434 | for IPv4 the filter by octets is membership in the documented address blocks, kind by kind |
| `SendLoop.BogonBlocks6` | crates/sfu/src/udp_loop.rs:435-458 | the same for the IPv6 blocks |
| `SendLoop.FlushConserves` | crates/sfu/src/udp_loop.rs:471-518 | dropped and attempted add up to the queue, failures are among the attempts, and what is attempted is a sub-multiset of the queue holding exactly the routable transmits |
| `SendLoop.PositionsAre` | crates/sfu/src/udp_loop.rs:485-499 | the selected positions are exactly the qualifying ones, in increasing order |
| `SendLoop.SentOrder` | crates/sfu/src/udp_loop.rs:485-499 | the attempted transmits are those at the routable positions, in queue order |
| `SendLoop.RefusedOrder` | crates/sfu/src/udp_loop.rs:485-499 | the failures are those at the refused positions, in queue order |
| `SendLoop.DroppedOrder` | crates/sfu/src/udp_loop.rs:487-493 | the labels of the drops are those of the transmits at the bogon positions |
| `SendLoop.RefusedKinds` | crates/sfu/src/udp_loop.rs:460-497 | the labels of the failures stand for the error codes at the refused positions: 89, 101, 113, 13, or none of these |
| `SendLoop.TrimmedFlush` | crates/sfu/src/udp_loop.rs:500-507 | a map that lacks only outdated entries makes the same decisions in a flush |
| `SendLoop.EvictionTrims` | crates/sfu/src/udp_loop.rs:222-222 | over every run with a forward clock the evicting map lacks only outdated entries |
| `SendLoop.EvictionInvisible` | crates/sfu/src/udp_loop.rs:222-222 | an evicting and an ever-growing map log the same failures in every run |
| `SendLoop.WarningsSpaced` | crates/sfu/src/udp_loop.rs:498-516 | any two lines of the log for one destination are at least ten seconds apart |
| `SendLoop.WarningsAreLogged` | crates/sfu/src/udp_loop.rs:498-516 | the log of a run names a destination exactly at the clock readings of its warnings |
| `SendLoop.FailuresAreLogged` | crates/sfu/src/udp_loop.rs:498-516 | in every run with a forward clock each failure is in the log at its own time, or the log has an earlier line for the destination less than ten seconds before |
| `SendLoop.MapIsRecentLog` | crates/sfu/src/udp_loop.rs:217-222 | in every such run the map holds exactly the destinations with a line of the last minute, each with the time of its latest line |
| `Base64Url.EncodeLoop` | crates/partner-cli/src/commands.rs:294-319 | the chunk loop computes the encoding, of length ⌈4n/3⌉ |
| `Base64Url.EncodePiece` | crates/partner-cli/src/commands.rs:298-316 | one chunk gives two, three or four symbols of the encoding |
| `Base64Url.EncodeLength` | crates/partner-cli/src/commands.rs:294-319 | the output has the promised length and only alphabet characters |
| `Base64Url.DecodeLoop` | crates/partner-cli/src/commands.rs:351-369 | the byte loop with its unmasked 32-bit accumulator computes the decoding |
| `Base64Url.WrapIsExact` | crates/partner-cli/src/commands.rs:351-369 | losing the high bits of the accumulator never shows: it decodes as an exact accumulator does |
| `Base64Url.RoundTrip` | crates/partner-cli/src/commands.rs:294-369 | decoding an encoding gives the bytes back, for every byte sequence |
| `Base64Url.DecodeLength` | crates/partner-cli/src/commands.rs:351-369 | decoding succeeds exactly on alphabet strings, with ⌊3n/4⌋ bytes |
| `Base64Url.ReencodeIffCanonical` | crates/partner-cli/src/commands.rs:294-369 | re-encoding what was decoded gives the input if and only if the input is canonical |
| `Base64Url.NonCanonical` | crates/partner-cli/src/commands.rs:351-369 | two texts that decode to one byte, of which only one is its encoding |
| `Base64Bits.Alphabet` | crates/partner-cli/src/commands.rs:295-295 | a character has the value of its position in the literal alphabet, and no other character has one |
| `Base64Bits.DecodedBits` | crates/partner-cli/src/commands.rs:351-369 | the bits of the decoded bytes are the bits of the text, six per symbol, from the first on |
| `Base64Bits.EncodedBits` | crates/partner-cli/src/commands.rs:294-319 | the bits of an encoding are the bits of the bytes, followed by fewer than six zeros |
| `Base64Url.PubkeyVerdict` | crates/partner-cli/src/commands.rs:327-348 | a key is accepted with its decoding if and only if it is 43 alphabet characters, otherwise refused for its length in UTF-8 bytes or else its alphabet, the decode and size errors are unreachable, and the accepted spelling is canonical exactly when its last two bits are zero |
| `EnvFile.EscapeLoop` | crates/opec/src/secrets/register.rs:416-416 | replacing quotes one by one computes the escape |
| `EnvFile.EnvStore.Write` | crates/opec/src/secrets/register.rs:389-454 | the first offending value is refused and then nothing is written; otherwise the file holds the ten pairs |
| `EnvFile.QuotedValue` | crates/opec/src/secrets/register.rs:409-417 | inside the quotes a shell reader recovers any value, quotes, dollars and backslashes included |
| `EnvFile.ReadContent` | crates/opec/src/secrets/register.rs:406-418 | reading back any list of pairs with proper names gives the list |
| `EnvFile.EnvRoundTrip` | crates/opec/src/secrets/register.rs:389-418 | a shell that sources the file gets exactly the ten pairs of the response if and only if no value holds a NUL |
| `EnvFile.SourcedVariables` | crates/opec/src/secrets/register.rs:394-405 | each of the ten variables of a shell that sources the file holds its own field of the response, and an absent relay secret is empty |
| `EnvFile.TenLines` | crates/opec/src/secrets/register.rs:343-418 | under the guard the file is ten lines, one per pair |
| `EnvFile.NoneBad` | crates/opec/src/secrets/register.rs:343-351 | nothing is refused if and only if no value has a newline or carriage return |
| `EnvFile.WrittenWhen` | crates/opec/src/secrets/register.rs:343-405 | the file is written if and only if none of the ten fields has a newline or carriage return |
| `EnvFile.RefusedFirst` | crates/opec/src/secrets/register.rs:406-409 | a refusal names the first such field in file order |
| `Tenants.CheckDomains` | crates/opec/src/tenant/validate.rs:85-103 | the domain loop reports per domain first the format, then the collision, and extends the claims |
| `Tenants.CheckRoutes` | crates/opec/src/tenant/validate.rs:106-131 | the route loop reports per route first the path, then the action |
| `Tenants.Validate` | crates/opec/src/tenant/validate.rs:51-139 | the nested loops return the complete error list in order, empty if and only if the file is well formed |
| `Tenants.NoErrorsIffWellFormed` | crates/opec/src/tenant/validate.rs:51-139 | no error exactly when the version is 1, every item is well formed, ids are distinct and no domain is listed by two tenants |
| `Tenants.ClaimsOf` | crates/opec/src/tenant/validate.rs:85-103 | the claims hold exactly the listed domains, each under its first lister |
| `Tenants.ErrorsAreDeserved` | crates/opec/src/tenant/validate.rs:69-132 | the list is sound and complete: an error is in it if and only if some tenant gives cause for it, with the right tenant, domain, index and first claimer |
| `ErrorOrder.ErrorsInOrder` | crates/opec/src/tenant/validate.rs:69-132 | the list has exactly one error for every check that fails, in the order of the checks over tenants, id, domains and routes |
| `TenantFormats.IdIsPattern` | crates/opec/src/tenant/validate.rs:61-61 | the id check accepts exactly the strings of the pattern, piece by piece and by literal alphabets |
| `TenantFormats.DomainIsPattern` | crates/opec/src/tenant/validate.rs:62-63 | the domain check accepts exactly the strings of the pattern: dotted labels and a top-level name of at least two letters |
| `Routes.RenderTenantRoutes` | crates/opec/src/caddy/render.rs:17-29 | the loops push the routes of the enabled tenants in order |
| `Routes.RoutesAre` | crates/opec/src/caddy/render.rs:17-44 | a route is in the output if and only if it is the main route or a redirect of an enabled tenant |
| `Routes.ValidateShape` | crates/opec/src/caddy/render.rs:238-274 | the check passes exactly on well-shaped routes, and the error names a violation that is there and the first in the order of the checks |
| `Routes.ShapeIffNoViolation` | crates/opec/src/caddy/render.rs:230-274 | a route is well shaped if and only if none of the errors describes it, where each error excludes what is checked before it |
| `Routes.RenderedShapes` | crates/opec/src/caddy/render.rs:17-274 | the shape check accepts everything the renderer produces |
| `Routes.SubrouteShapes` | crates/opec/src/caddy/render.rs:47-208 | every rendered sub-route is well shaped too, for all actions and options |
| `Routes.DialHasPort` | crates/opec/src/caddy/render.rs:121-150 | an upstream is always dialled as host and port without a path |
| `Routes.MainIdsApart` | crates/opec/src/caddy/render.rs:32-216 | a main route's id identifies its tenant and differs from every redirect id |
| `Routes.IdsIdentifyMains` | crates/opec/src/caddy/render.rs:32-44 | in a validated file a route that carries a main id is that tenant's main route |
| `Routes.OneTenantPerHost` | crates/opec/src/caddy/render.rs:32-44 | in a validated file two routes that take one host to sub-routes are the same route |
| `RouteMeaning.DialIs` | crates/opec/src/caddy/render.rs:121-150 | an upstream of any scheme, host and path is dialled at the host and its own port, or 443 for https and 80 otherwise |
| `RouteMeaning.HasParts` | crates/opec/src/caddy/render.rs:121-130 | every upstream string has such parts |
| `RouteMeaning.ProxyMeans` | crates/opec/src/caddy/render.rs:77-119 | a proxy action becomes one handler that dials the upstream, with TLS exactly for https, the given host header or the upstream's host, and unbuffered exactly when asked for |
| `RouteMeaning.FilesMean` | crates/opec/src/caddy/render.rs:164-208 | a file action becomes strip, fallback, file server and cache header in this order, each exactly when asked for |
| `RouteMeaning.RouteMeans` | crates/opec/src/caddy/render.rs:47-74 | a sub-route matches exactly the path of its route and handles it as its action says |
| `RouteMeaning.HostsAreServed` | crates/opec/src/caddy/render.rs:17-44 | every domain of every enabled tenant is taken by the tenant's main route, under the tenant's id, to sub-routes that carry out all of its routes in order |
| `RouteMeaning.RedirectsAnswer` | crates/opec/src/caddy/render.rs:212-224 | every redirect of every enabled tenant is a route that answers its host with the target, 308 if permanent and 307 otherwise |
| `RouteDiff.SortBy` | crates/opec/src/caddy/diff.rs:62-65 | the sort gives a strictly increasing permutation |
| `RouteDiff.IdMapKeys` | crates/opec/src/caddy/diff.rs:70-81 | the map holds every id in the list, each with a route of the list that carries it |
| `RouteDiff.CollectAdded` | crates/opec/src/caddy/diff.rs:36-41 | for every visiting order, the added routes are those whose id is only proposed |
| `RouteDiff.CollectRemoved` | crates/opec/src/caddy/diff.rs:43-48 | for every visiting order, the removed ids are those that are only live |
| `RouteDiff.CollectChanged` | crates/opec/src/caddy/diff.rs:50-60 | for every visiting order, the changes are the common ids with different routes, and the count that of the equal ones |
| `RouteDiff.DiffRoutes` | crates/opec/src/caddy/diff.rs:28-68 | the result is the diff of the two id maps |
| `RouteDiff.DiffIsUnique` | crates/opec/src/caddy/diff.rs:62-65 | the two maps determine the diff, so the hash order never shows |
| `RouteDiff.DiffReachesProposed` | crates/opec/src/caddy/diff.rs:28-68 | carrying the diff out on the live map gives the proposed map |
| `RouteDiff.DiffCounts` | crates/opec/src/caddy/diff.rs:28-68 | every proposed and every live id is counted exactly once |
| `RouteDiff.EmptyIffSame` | crates/opec/src/caddy/diff.rs:28-68 | the diff is empty if and only if the maps are equal |
| `TenantRoutes.MainsSurvive` | crates/opec/src/caddy/diff.rs:70-81 | in a validated file every enabled tenant's main route survives keying by id |
| `TenantRoutes.NoRouteLost` | crates/opec/src/caddy/diff.rs:70-81 | keying by id loses no rendered route if and only if no enabled tenant has two different redirects for one host |
| `TenantRoutes.LostRedirect` | crates/opec/src/tenant/validate.rs:51-139 | a validated file that loses a redirect |
| `TenantRoutes.Deployed` | crates/opec/src/caddy/diff.rs:28-68 | from any live state, the diff of a validated file's routes leads to every enabled main route being live under its own id |

## Left out

- HTTP polling and reporting, token reading and the report of an applied epoch: input and output; a poll is a step that delivers any epoch.
- Metrics, log messages, the marker file for dropped fields and the scrubbing of keys from error texts.
- The restart of a dependent unit after an apply (`should_restart`): it does not feed back into the protocol.
- fsync and temporary files: a write is one rename that happens or does not.
- Inode and modification time as identity: a rename always gives a new identity.
- Error texts: an error is its kind and the field it names.
- The installer script beyond its locking and its atomic write: its text is arbitrary.
- What the kernel does with a conf it refuses half-way: the kernel's state is then unknown.
- AgentLoop.Host.AcquireLock: time is a number of attempts.
- The pacer, the media registry and the parsing of frame descriptors: budgets are arbitrary inputs.
- SendLoop.Loop.Flush: the clock is in milliseconds.
- Random generation and key pairs of the command-line tool, and token formats.
- EnvFile.EnvStore.Write: file modes and the temporary file are not modelled, and the reader covers the plain and single-quoted words that the writer produces.
- The parsing of the tenants file and its security-headers field, which neither validation nor rendering reads.
- Redirect hosts as routing targets: validation does not check them, so only main routes are proved to own their hosts; hosts are compared case-sensitively, as the code does.
- RouteDiff.SortBy: stability on equal keys is not stated, because the ids that are sorted are distinct.
- Data channels, authentication, templates, secrets files and the remaining command-line code: none of the state modelled here is read or written there.
