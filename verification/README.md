# Docker daemon: images, builds and containers

A Dafny model of the hard parts of the Docker daemon that is vendored in this repository, and
proofs about it. The model follows the code: mutating code is modelled by classes and loops, each
proved against a specification function, and the theorems are about those functions. Concurrency is
modelled by systems of steps, with theorems over every run. `dafny verify dfyconfig.toml` checks
all of it.

| file | component |
|---|---|
| `Options.dfy`, `References.dfy`, `EnvEntry.dfy` | optional values, repository references, `key=value` entries and first-match lookup |
| `ShellWord.dfy`, `ShellRoundTrip.dfy`, `ShellLaws.dfy` | Dockerfile word expansion: grammar, evaluator with a cursor, printer, both round trips, and the laws of expansion on the text |
| `BuilderEnv.dfy` | ENV instructions over the builder's environment list |
| `ImageConfig.dfy`, `Manifest.dfy` | image configurations and the repair of manifests |
| `Probing.dfy`, `PullSpec.dfy`, `PullGraph.dfy`, `PullDistinct.dfy`, `PullChoice.dfy`, `Pull.dfy` | strong IDs, the choice of IDs on a v2 pull, and what it means in a graph |
| `ImageGraph.dfy`, `Extraction.dfy`, `PullTag.dfy` | the image graph, and a whole pull with every way to fail |
| `PullAgain.dfy`, `PullDelete.dfy`, `PullExample.dfy` | a second pull, a deletion during a pull, and a pull that leaves a missing parent |
| `ImageDelete.dfy` | recursive image deletion |
| `PushList.dfy` | the order of images on a v1 push |
| `Pool.dfy` | the pool of running pulls and pushes |
| `Monitor.dfy` | container state and the restart monitor |
| `Merge.dfy`, `EnvOverride.dfy`, `Ports.dfy` | configuration merging, environment overrides, port display |
| `Retained.dfy` | layers retained by build sessions |

Decoding, field access, ID validation and the two hashes are the fields of `ImageConfig.Library`,
so the theorems hold for every such library; `Sound` says that strong IDs, hashes and
valid IDs are never empty, `Injective` that `StrongID` has no collisions. A graph maps an image ID to its
stored parent, layer digest and v1 configuration. `Closed` means that every parent is present,
`Acyclic` that every walk along the parents ends, at a base image or at a missing parent, and
`Rooted` both.

## Where the code and the expected law differ

Each of these is proved with the exact condition under which the law does hold, and with an input
for which it does not.

- A v1 configuration may carry a `parent_id` of its own, and for the base of a manifest nothing
  removes it. Then a strong ID no longer determines its manifest (`MerkleChain`,
  `OwnParentCollides`), and a pull can leave an image whose parent is absent (`PullClosedIff`,
  `RegisterClosedIff`, `PullPlantsMissingParent`), which the next pull of the same manifest does not
  recognise (`SecondPullIsIdleIff`, `ForeignIsPulledAgain`).
- `ImageDelete` can remove images and still return an error (`ErrorAfterDeletionIff`,
  `ErrorAfterDeletionExample`).
- ENV treats a name that contains `=` differently when it writes and when it looks up
  (`PlainUpdateIff`, `PlainUpdateExample`).
- Not every text has a normal form: a double-quoted part that ends in a backslash cannot be printed
  (`PrintReadsBackIff`, `ReadThenPrint`, `TrailingBackslashHasNoNormalForm`).
- `Merge` is not associative when an entrypoint is present but empty (`MergeAssociativeIff`,
  `MergeNotAssociative`).
- The last override of a variable need not decide: a name without default keeps its first value and
  cannot be unset again, and a name that is among the defaults twice keeps the value of its first
  entry (`LastDecidesIff`, `NewNameExample`, `UnsetNewNameExample`, `RepeatedDefaultExample`).
- Private port 0 is taken for "no group yet" (`DisplayablePorts`, `ZeroLostExample`).
- Retention is not counted: an inner release drops what an outer retain of the same session holds
  (`NestedReleaseIff`, `NestedReleaseExample`).
- The v1 pull removes a pool key that it may only have waited on, and two workers can then hold one
  key (`StrayRemoveIff`, `StrayRunShares`).
- The back-off overflows from the 37th consecutive short run on (`BackoffExactIff`,
  `BackoffOverflowExample`), which no machine lives to see (`OverflowTakesCenturies`).

## Model

| member | source | states |
|---|---|---|
| `ShellWord.Evaluator.constructor` | src/github.com/docker/docker/builder/shell_parser.go:23-30 | a fresh evaluator stands at the start of the word with the given environment |
| `ShellWord.Evaluator.Peek` | src/github.com/docker/docker/builder/shell_parser.go:76-81 | the next character, NUL at the end, nothing consumed |
| `ShellWord.Evaluator.Next` | src/github.com/docker/docker/builder/shell_parser.go:83-90 | consumes exactly one character, or none and gives NUL at the end; the cursor never passes the end |
| `ShellWord.Evaluator.ProcessStopOn` | src/github.com/docker/docker/builder/shell_parser.go:38-74 | for every word and stop character the mutating loop gives the value of the parse tree of what was left, stops where the grammar stops, fails on the same error, and terminates |
| `ShellWord.Evaluator.ProcessPlain` | src/github.com/docker/docker/builder/shell_parser.go:59-70 | a plain or escaped character is the corresponding part of the tree; a backslash takes the next character literally and vanishes at the end |
| `ShellWord.Evaluator.ProcessSingleQuote` | src/github.com/docker/docker/builder/shell_parser.go:92-107 | everything up to the closing quote or the end is literal |
| `ShellWord.Evaluator.ProcessDoubleQuote` | src/github.com/docker/docker/builder/shell_parser.go:109-148 | a double-quoted part is the tree of its contents, with expansions inside, and an unclosed one ends with the word |
| `ShellWord.Evaluator.ProcessQuotedPlain` | src/github.com/docker/docker/builder/shell_parser.go:128-144 | inside double quotes a backslash escapes only a quote and a dollar, and a backslash at the very end vanishes |
| `ShellWord.Evaluator.ProcessDollar` | src/github.com/docker/docker/builder/shell_parser.go:150-203 | a dollar starts a braced or bare expansion or stands for itself, and the value is that of the part read; what the part is worth on every text is said by the laws of `ShellLaws` |
| `ShellWord.Evaluator.ProcessBraces` | src/github.com/docker/docker/builder/shell_parser.go:153-196 | the name of a braced expansion is read, then a closing brace or a modifier |
| `ShellWord.Evaluator.ProcessAfterName` | src/github.com/docker/docker/builder/shell_parser.go:156-195 | a name without a closing brace must be followed by a colon, or it is an error |
| `ShellWord.Evaluator.ProcessModifier` | src/github.com/docker/docker/builder/shell_parser.go:166-193 | the word of a modifier is evaluated up to its own closing brace, at any depth; `-` supplies it for an empty variable, `+` for a non-empty one, anything else is an error |
| `ShellWord.Evaluator.ProcessName` | src/github.com/docker/docker/builder/shell_parser.go:205-224 | the name is a single leading digit, or the longest run of letters, digits and underscores; it is empty exactly when nothing was consumed |
| `ShellWord.Evaluator.GetEnv` | src/github.com/docker/docker/builder/shell_parser.go:226-243 | the scan finds the value of the first entry with that name, an entry without `=` being an empty value |
| `ShellWord.ProcessWord` | src/github.com/docker/docker/builder/shell_parser.go:23-30 | for every word and environment: expansion is parsing into a tree and evaluating the tree, of which the laws of `ShellLaws` say what it gives on the text |
| `ShellWord.ExtendResult` | src/github.com/docker/docker/builder/shell_parser.go:52-70 | appending the text of one part to the result is adding that part in front of the rest of the tree |
| `ShellRoundTrip.SingleRoundTrip` | src/github.com/docker/docker/builder/shell_parser.go:92-107 | reading a single-quoted text back gives exactly that text and what follows |
| `ShellRoundTrip.PartRoundTrip` | src/github.com/docker/docker/builder/shell_parser.go:38-74 | printing any well-formed part in front of any text and reading it gives the part back and leaves the text |
| `ShellRoundTrip.DollarRoundTrip` | src/github.com/docker/docker/builder/shell_parser.go:150-203 | the same for `${n}`, `${n:-w}` and `${n:+w}` with words nested to any depth |
| `ShellRoundTrip.QuotedRoundTrip` | src/github.com/docker/docker/builder/shell_parser.go:109-148 | the same for the contents of double quotes |
| `ShellRoundTrip.WordRoundTrip` | src/github.com/docker/docker/builder/shell_parser.go:38-74 | the same for whole words, at top level and in braces |
| `ShellRoundTrip.PrintThenProcess` | src/github.com/docker/docker/builder/shell_parser.go:23-243 | for every well-formed expansion tree and environment, processing its printed form gives exactly the value of the tree |
| `ShellRoundTrip.PartReadsBack` | src/github.com/docker/docker/builder/shell_parser.go:38-74 | a part that is read back from its own print, in front of any text, is well-formed |
| `ShellRoundTrip.DollarReadsBack` | src/github.com/docker/docker/builder/shell_parser.go:150-203 | the same for expansions: the name is one that the reader stops at, and the word is well-formed |
| `ShellRoundTrip.QuotedReadsBack` | src/github.com/docker/docker/builder/shell_parser.go:109-148 | the same for double quotes: no quoted part inside, and no backslash in front of anything but a literal |
| `ShellRoundTrip.WordReadsBack` | src/github.com/docker/docker/builder/shell_parser.go:38-74 | the same for whole words |
| `ShellRoundTrip.PrintReadsBackIff` | src/github.com/docker/docker/builder/shell_parser.go:23-243 | for every tree: reading its print gives the tree if and only if it is well-formed |
| `ShellRoundTrip.WordClean` | src/github.com/docker/docker/builder/shell_parser.go:38-74 | reading any NUL-free text that does not end in a backslash gives a well-formed tree and leaves such a text |
| `ShellRoundTrip.ReadThenPrint` | src/github.com/docker/docker/builder/shell_parser.go:23-243 | for every text that parses: printing its tree and reading that gives the tree again if and only if the tree is well-formed, and then both texts expand to the same value in every environment |
| `ShellRoundTrip.TrailingBackslashHasNoNormalForm` | src/github.com/docker/docker/builder/shell_parser.go:130-142 | a word whose reading ends a double-quoted part in a backslash, for which printing and reading do not agree |
| `ShellLaws.PlainCharacter` | src/github.com/docker/docker/builder/shell_parser.go:59-70 | an ASCII character that is not special stands for itself in front of the value of the rest |
| `ShellLaws.Backslash` | src/github.com/docker/docker/builder/shell_parser.go:59-70 | a backslash takes the next character as it is, and vanishes in front of NUL and at the end |
| `ShellLaws.SingleQuotes` | src/github.com/docker/docker/builder/shell_parser.go:92-107 | single quotes give the text between them, or up to the end if they are not closed |
| `ShellLaws.EncodeHigh` | src/github.com/docker/docker/builder/shell_parser.go:69-69 | a byte above ASCII comes out as the two UTF-8 bytes of that code point, which can be read back from them |
| `ShellLaws.QuotedCharacter` | src/github.com/docker/docker/builder/shell_parser.go:116-145 | inside double quotes a character stands for itself, a backslash escapes a quote and a dollar and is kept in front of anything else |
| `ShellLaws.QuotesClose` | src/github.com/docker/docker/builder/shell_parser.go:116-121 | a closing quote goes back to the open, and an unclosed one ends with the word |
| `ShellLaws.BareVariable` | src/github.com/docker/docker/builder/shell_parser.go:197-202 | for every name, rest and environment: `$name` is the value looked up in front of the value of the rest, in the open and inside double quotes |
| `ShellLaws.BareASCIIVariable` | src/github.com/docker/docker/builder/shell_parser.go:197-224 | the same with the characters of names spelled out: the longest run counts, and a leading digit is a name by itself |
| `ShellLaws.LoneDollar` | src/github.com/docker/docker/builder/shell_parser.go:197-202 | a dollar in front of neither a brace nor a name gives a dollar |
| `ShellLaws.BracedVariable` | src/github.com/docker/docker/builder/shell_parser.go:153-161 | `${name}` is the value looked up, in the open and inside double quotes |
| `ShellLaws.Modifiers` | src/github.com/docker/docker/builder/shell_parser.go:162-194 | `${name:-word}` is the variable unless that is empty and then the value of the word, `${name:+word}` the value of the word unless the variable is empty, for every well-formed word, nested to any depth |
| `ShellLaws.UnclosedModifier` | src/github.com/docker/docker/builder/shell_parser.go:162-194 | without the closing brace the word is read up to the end, with the same value |
| `ShellLaws.MissingColonFails` | src/github.com/docker/docker/builder/shell_parser.go:195-195 | a name in braces that neither a brace nor a colon follows is that error |
| `ShellLaws.OtherModifierFails` | src/github.com/docker/docker/builder/shell_parser.go:191-192 | any other modifier is that error, after its word has been read |
| `ShellLaws.FailureSpreads` | src/github.com/docker/docker/builder/shell_parser.go:52-57 | a word in front of any text is worth its value in front of that of the text, and an error there is the error of the whole |
| `EnvEntry.EntryRoundTrip` | src/github.com/docker/docker/builder/shell_parser.go:226-243 | a name without `=` and a value can be read back from the entry they form |
| `EnvEntry.BareEntry` | src/github.com/docker/docker/builder/shell_parser.go:226-243 | an entry without `=` is a name with an empty value |
| `EnvEntry.LookupAt` | src/github.com/docker/docker/builder/shell_parser.go:226-243 | lookup is decided by the first entry with the name |
| `EnvEntry.LookupConcat` | src/github.com/docker/docker/builder/shell_parser.go:226-243 | in a concatenation the left list wins where it has the name |
| `EnvSpec.EvalAgrees` | src/github.com/docker/docker/builder/shell_parser.go:23-243 | a tree has the same value under a list of entries and under a map that agrees with it on every name |
| `EnvSpec.SetEntryLookup` | src/github.com/docker/docker/builder/dispatchers.go:74-91 | what lookup gives for every name after one ENV pair, for names with and without `=` |
| `EnvSpec.SetEntriesAgree` | src/github.com/docker/docker/builder/dispatchers.go:74-91 | after all pairs of one instruction the list agrees with the map updated pair by pair |
| `EnvSpec.ExpandAllAgrees` | src/github.com/docker/docker/builder/evaluator.go:322-347 | all words of an instruction are expanded against the environment from before it, with the same values or the same error under list and map |
| `EnvSpec.RunAgrees` | src/github.com/docker/docker/builder/evaluator.go:322-347 | over every script of ENV instructions, first-match lookup in the entry list equals lookup in a map updated in order, and both stop with the same error |
| `EnvSpec.AsMapAgrees` | src/github.com/docker/docker/builder/shell_parser.go:226-243 | every list of entries agrees with the map made of its first entries for each name |
| `EnvSpec.RunFromList` | src/github.com/docker/docker/builder/evaluator.go:322-347 | so for every starting list, every script and every name, lookup in the list is lookup in the map |
| `EnvSpec.PlainUpdateIff` | src/github.com/docker/docker/builder/dispatchers.go:74-91 | an ENV pair sets its own name and nothing else if and only if the name has no `=`, or the value is empty and the part before `=` is already present |
| `EnvSpec.PlainUpdateExample` | src/github.com/docker/docker/builder/dispatchers.go:74-91 | setting the name `A=B` leaves it unset and sets `A` |
| `EnvSpec.ExpandAllEach` | src/github.com/docker/docker/builder/evaluator.go:322-347 | the result is the value of every word, or the error of the first word that has one |
| `EnvSpec.LastPairCounts` | src/github.com/docker/docker/builder/dispatchers.go:74-91 | of the pairs that set a name the last one counts, whatever the others set |
| `EnvSpec.OtherNamesStay` | src/github.com/docker/docker/builder/dispatchers.go:74-91 | a name that no pair is about keeps its value |
| `EnvSpec.InstructionEnds` | src/github.com/docker/docker/builder/evaluator.go:322-347 | exactly when an instruction ends in which error, and that it then changes nothing |
| `EnvSpec.InstructionSets` | src/github.com/docker/docker/builder/dispatchers.go:42-95 | an instruction that goes through gives each name the expansion of the word behind its last occurrence as a name, and changes no other |
| `BuilderEnv.Builder.SetVariable` | src/github.com/docker/docker/builder/dispatchers.go:77-91 | the scan replaces the first entry with the name or appends one; the list is the specified one |
| `BuilderEnv.Builder.Env` | src/github.com/docker/docker/builder/dispatchers.go:42-95 | no argument and an odd number of arguments are errors that change nothing; otherwise every pair is set in order |
| `BuilderEnv.Builder.Dispatch` | src/github.com/docker/docker/builder/evaluator.go:322-347 | all words are expanded in the environment from before the instruction, and the first bad one is the error and changes nothing; then each name has the value of its last pair, and every other name the one it had |
| `ImageConfig.ConfigHolds` | src/github.com/docker/docker/image/image.go:86-129 | a configuration can be made exactly when the image has fields and the digests are valid; it holds the layer, the given parent and every other field of the image but for `id`, `parent` and `Size` |
| `ImageConfig.ConfigDetermines` | src/github.com/docker/docker/image/image.go:86-129 | two configurations are equal if and only if the layer, the v1 fields that are kept, and the effective parent are: the given one, else the `parent_id` that the v1 image brings |
| `Manifest.ReadImages` | src/github.com/docker/docker/graph/pull_v2.go:505-515 | succeeds exactly when every history entry decodes and has a valid ID, and gives the decoded images |
| `Manifest.FindRepeat` | src/github.com/docker/docker/graph/pull_v2.go:521-532 | reports nothing exactly when no ID comes back except directly after itself, and otherwise an ID that does |
| `Manifest.CutRepeats` | src/github.com/docker/docker/graph/pull_v2.go:534-542 | the backward in-place cut succeeds exactly when every entry links to the next, keeps the last entry of each run of equal IDs in both lists, and otherwise names the broken link nearest the base |
| `Manifest.CutIsPick` | src/github.com/docker/docker/graph/pull_v2.go:534-542 | cutting positions one by one from the back leaves exactly the entries of the run ends, in order |
| `Manifest.FixManifestLayers` | src/github.com/docker/docker/graph/pull_v2.go:504-545 | which of the four errors is returned and when; on success both lists are the same subsequence of the input, the last of each run of equal IDs |
| `ManifestSpec.EndsInOrder` | src/github.com/docker/docker/graph/pull_v2.go:534-542 | the kept positions are increasing and are all ends of runs |
| `ManifestSpec.EndsWithBase` | src/github.com/docker/docker/graph/pull_v2.go:534-542 | the base is always kept, as the last entry |
| `ManifestSpec.EndsComplete` | src/github.com/docker/docker/graph/pull_v2.go:534-542 | between two kept positions there is no other end of a run |
| `ManifestSpec.KeptIsChain` | src/github.com/docker/docker/graph/pull_v2.go:504-545 | what is kept has pairwise distinct IDs, each the parent of the one before, and a base without parent |
| `ManifestSpec.FixIdempotent` | src/github.com/docker/docker/graph/pull_v2.go:504-545 | a fixed manifest is accepted again and a second fix changes nothing |
| `Probing.StopsWithin` | src/github.com/docker/docker/graph/pull_v2.go:622-628 | if iterating the hash ever leaves a set of rejected IDs, it does so within as many tries as the set has members |
| `Probing.NoRepeatStops` | src/github.com/docker/docker/graph/pull_v2.go:622-628 | if the first tries do not repeat an ID, probing stops within as many tries as there are rejected IDs |
| `PullSpec.InfosHashed` | src/github.com/docker/docker/graph/pull_v2.go:550-561 | every descriptor is the hash of its own entry and of the strong ID below it, remembers the v1 ID, and starts with its strong ID as ID |
| `PullSpec.InfosIff` | src/github.com/docker/docker/graph/pull_v2.go:550-561 | a manifest has descriptors if and only if all its entries decode and all its configurations can be made |
| `PullSpec.MerkleChain` | src/github.com/docker/docker/graph/pull_v2.go:550-561 | strong IDs of two manifests agree at a position if and only if layers and configurations agree from there down, and both end with the same own parent, or the base of the shorter names the missing layer itself |
| `PullSpec.TopDeterminesManifest` | src/github.com/docker/docker/graph/pull_v2.go:127-151 | with bases that name no parent, top strong IDs are equal if and only if length, layer digests and normalised configurations at every level are |
| `PullSpec.OwnParentCollides` | src/github.com/docker/docker/image/image.go:86-129 | a base that names a parent of its own hashes to the same strong ID as the layer on top of that parent |
| `PullSpec.StrongIDsDistinct` | src/github.com/docker/docker/graph/pull_v2.go:550-561 | the strong IDs of one manifest with a plain base are pairwise distinct |
| `PullSpec.ProbingStops` | src/github.com/docker/docker/graph/pull_v2.go:607-631 | if hashing from one ID does not repeat within as many tries as the graph has entries, probing from that ID stops within them |
| `PullSpec.TopIsFreeOrValid` | src/github.com/docker/docker/graph/pull_v2.go:607-644 | in each branch of one step the ID chosen is absent from the graph or validates for its position |
| `PullSpec.ChoiceIsFreeOrValid` | src/github.com/docker/docker/graph/pull_v2.go:576-654 | every chosen ID is absent from the graph or names an entry that validates for its position, and nothing but IDs and parents changes |
| `PullDistinct.ChosenOrigin` | src/github.com/docker/docker/graph/pull_v2.go:607-644 | a chosen ID was in the graph, or is one of the tries from the strong ID of its position |
| `PullDistinct.ProbesApart` | src/github.com/docker/docker/graph/pull_v2.go:700-715 | without hash collisions the tries from different strong IDs never meet |
| `PullDistinct.PresentDistinct` | src/github.com/docker/docker/graph/pull_v2.go:660-698 | an ID that validates for two positions would validate for the two below, down to the base: it cannot |
| `PullDistinct.ChosenDistinct` | src/github.com/docker/docker/graph/pull_v2.go:576-654 | without hash collisions and with a plain base the chosen IDs are pairwise distinct |
| `PullGraph.PresentLayer` | src/github.com/docker/docker/graph/pull_v2.go:660-698 | a present chosen ID has the next chosen ID as stored parent, the layer digest of the manifest, and its configuration |
| `PullGraph.PresentSuffix` | src/github.com/docker/docker/graph/pull_v2.go:576-698 | in a closed graph the present chosen IDs form a base-side suffix, with parents, digests and configurations as in the manifest |
| `Pull.TryNextID` | src/github.com/docker/docker/graph/pull_v2.go:700-715 | moves to the hash of the ID and succeeds exactly when the new ID is free or validates |
| `Pull.FindID` | src/github.com/docker/docker/graph/pull_v2.go:622-628 | the retry loop stops at the first ID along the probe sequence that is free or validates |
| `Pull.ChooseOne` | src/github.com/docker/docker/graph/pull_v2.go:607-644 | one step of the loop, on the list and the graph: a present ID that validates stays, one that does not is replaced by the first of its hashes that is free or validates and ends the reuse, and an absent one gives way to the v1 ID exactly if reuse still goes on and that validates |
| `Pull.FixParents` | src/github.com/docker/docker/graph/pull_v2.go:647-653 | afterwards every parent is the ID chosen below |
| `Pull.AttemptIDReuse` | src/github.com/docker/docker/graph/pull_v2.go:576-654 | the in-place backward loop leaves the IDs that `RightlyChosen` describes by validation alone: strong where present and valid, the first free or valid try where taken, and where absent the v1 ID exactly when every layer from there down is present and valid; a failed migration changes nothing |
| `PullChoice.ChoiceIsRight` | src/github.com/docker/docker/graph/pull_v2.go:607-644 | the choice is right at every position |
| `PullChoice.ReuseIsRight` | src/github.com/docker/docker/graph/pull_v2.go:607-654 | and still is when the parents have been filled in |
| `PullChoice.ReuseIff` | src/github.com/docker/docker/graph/pull_v2.go:607-644 | where the strong IDs from a position down are absent, it gets its v1 ID if and only if every v1 ID from there down validates |
| `PullChoice.RightChoiceUnique` | src/github.com/docker/docker/graph/pull_v2.go:607-644 | there is only one right choice of IDs, so the description says all there is to say |
| `Pull.HashLayers` | src/github.com/docker/docker/graph/pull_v2.go:551-561 | the backward loop hashes each layer over the strong ID below it, and fails exactly when the specified hashing does |
| `Pull.GetImageInfos` | src/github.com/docker/docker/graph/pull_v2.go:550-566 | fails exactly when some configuration cannot be built or hashed; otherwise the array holds the chosen descriptors |
| `ImageGraph.RegisterRooted` | src/github.com/docker/docker/graph/graph.go:262-320 | registering an image whose parent is present keeps every image on a finite parent chain |
| `ImageGraph.RemoveLeaf` | src/github.com/docker/docker/graph/graph.go:396-417 | removing an image without children keeps walks finite and a closed graph closed, and changes no other walk |
| `ImageGraph.LineageUnique` | src/github.com/docker/docker/graph/history.go:14-29 | the walk along the parents, to a base image or a missing parent, is unique |
| `ImageGraph.LineageDistinct` | src/github.com/docker/docker/graph/history.go:14-29 | the walk never meets an image twice |
| `ImageGraph.RootedEndsAtBase` | src/github.com/docker/docker/graph/history.go:14-29 | in a closed graph every walk ends at a base image |
| `PullGraph.ConfigParent` | src/github.com/docker/docker/image/image.go:115-122 | the configuration of a layer above the base records the strong ID below it |
| `PullGraph.WithParentsLinked` | src/github.com/docker/docker/graph/graph_unix.go:100-110 | the parent stored for a layer above the base is the ID chosen below it, whether or not it is the strong ID |
| `PullGraph.RegisterClosedIff` | src/github.com/docker/docker/graph/graph.go:262-320 | registering keeps a closed graph closed if and only if the stored parent is none, present or the image itself |
| `PullGraph.RegisteredValidates` | src/github.com/docker/docker/graph/pull_v2.go:660-698 | a layer registered with its parent, digest and v1 configuration passes validation |
| `PullGraph.ChainDistinct` | src/github.com/docker/docker/graph/pull_v2.go:660-698 | the IDs of a validating chain are pairwise distinct |
| `TagStore.TagStore.CheckLayers` | src/github.com/docker/docker/graph/pull_v2.go:321-349 | passes exactly when every chosen ID is free or validates; every layer looked at is held for the session, base first |
| `TagStore.TagStore.ExtractLayer` | src/github.com/docker/docker/graph/pull_v2.go:364-401 | when it succeeds; even when it fails it touches only its own ID, keeps a stored parent and adds at most the registered entry |
| `TagStore.TagStore.ExtractMissing` | src/github.com/docker/docker/graph/pull_v2.go:364-401 | at every failure point the graph has only grown, and is closed exactly when a base that was added has the parent it names; after success this layer and all below are in place |
| `TagStore.TagStore.ExtractLayers` | src/github.com/docker/docker/graph/pull_v2.go:351-413 | the same for the loop, for every pattern of failures; without failures and with distinct IDs it succeeds, and it reports an update exactly when the graph changed |
| `TagStore.TagStore.SetReference` | src/github.com/docker/docker/graph/tags.go:234-316 | a tag is moved; a digest reference is refused exactly when it names another image, and never moves; afterwards the reference names the image and every other reference is as it was |
| `TagStore.SetTagRetags` | src/github.com/docker/docker/graph/tags.go:234-316 | setting a tag makes that reference name the image and leaves every other one alone, in every repository |
| `TagStore.TagStore.Prepare` | src/github.com/docker/docker/graph/pull_v2.go:275-283 | when the manifest is refused and when its configurations are; otherwise the descriptors are hashed, linked, free or valid and, without collisions, distinct |
| `TagStore.TagStore.InstallHeld` | src/github.com/docker/docker/graph/pull_v2.go:321-455 | check, extract and tag while the layers are held: what each result means for the graph, the tag and the report of an update, and exactly when the tag conflicts |
| `TagStore.TagStore.Install` | src/github.com/docker/docker/graph/pull_v2.go:315-455 | the same, and afterwards nothing is held that was not held before |
| `TagStore.TagStore.PullTag` | src/github.com/docker/docker/graph/pull_v2.go:252-455 | a pull that succeeds leaves the tag on the top image and every other reference as it was, and any other result leaves all of them; for every failure the graph only grows, by layers of this image, and is closed exactly when a base that was added has the parent it names; on success the tag names the top of a chain that is present down to the base; which result when, so that without faults, collisions, foreign parents and conflicts the pull succeeds |
| `Extraction.PullClosedIff` | src/github.com/docker/docker/graph/pull_v2.go:351-413 | after a pull that goes through, the graph is closed if and only if the base was present before, or names no parent, or names one that was present before or is one of the layers |
| `Extraction.ExtractGrows` | src/github.com/docker/docker/graph/pull_v2.go:364-401 | one step, also a failed one, keeps all of this: only growth, new images linked, closure exactly as stated, finite walks |
| `Extraction.ExtractProgress` | src/github.com/docker/docker/graph/pull_v2.go:364-401 | a step that succeeds extends the chain of valid layers by one |
| `Extraction.LinkedClosedIff` | src/github.com/docker/docker/graph/graph.go:262-320 | a graph grown by linked images is closed if and only if a base that was added has the parent it names |
| `PullExample.PullPlantsMissingParent` | src/github.com/docker/docker/graph/graph_unix.go:100-110 | a pull into an empty store, without any fault, that succeeds and leaves an image whose parent is missing |
| `Extraction.PulledLineage` | src/github.com/docker/docker/graph/pull_v2.go:351-448 | after a successful pull the lineage of the tagged image is exactly the chain of chosen IDs |
| `PullAgain.TopAgain` | src/github.com/docker/docker/graph/pull_v2.go:607-644 | one step of the choice comes out the same in the graph grown by the first pull |
| `PullAgain.ChooseAgain` | src/github.com/docker/docker/graph/pull_v2.go:576-654 | so does the whole choice, unless a strong ID has appeared at a foreign position |
| `PullAgain.SecondPullIsIdleIff` | src/github.com/docker/docker/graph/pull_v2.go:252-455 | after a pull that went through, with distinct strong IDs, a second pull chooses the same IDs if and only if the base was present before the first or names no parent of its own; then it finds every layer in place and leaves the graph as it is |
| `PullAgain.SecondPullIsIdle` | src/github.com/docker/docker/graph/pull_v2.go:252-455 | in particular after a pull of a manifest with a plain base |
| `PullExample.ForeignIsPulledAgain` | src/github.com/docker/docker/graph/pull_v2.go:607-631 | a manifest that is given another ID when it is pulled again |
| `PullDelete.HeldLayersStay` | src/github.com/docker/docker/graph/pull_v2.go:315-328 | a deletion without force in the middle of a pull removes no layer of the pull |
| `PullDelete.DeleteKeepsProgress` | src/github.com/docker/docker/daemon/image_delete.go:140-143 | after such a deletion, at any point of the extraction, the state is one that the pull could have reached from the initial graph without the deleted images |
| `DeleteSpec.UntagAllPoints` | src/github.com/docker/docker/graph/tags.go:198-228 | untagging removes exactly the named references |
| `DeleteSpec.BusyStable` | src/github.com/docker/docker/daemon/image_delete.go:140-180 | removing an unused leaf does not change which images are in use |
| `DeleteSpec.ObstacleIff` | src/github.com/docker/docker/daemon/image_delete.go:140-180 | an image may go if and only if it is not in use and the history of every container reaches a base image |
| `DeleteSpec.DeleteRemovals` | src/github.com/docker/docker/daemon/image_delete.go:29-138 | every call removes, one after the other from the named image upwards, images without children, without references and, without force, not in use |
| `DeleteSpec.DeletesPrefix` | src/github.com/docker/docker/daemon/image_delete.go:29-138 | what is removed is an initial piece of the ancestor chain of the named image, with or without force |
| `DeleteSpec.DeleteKeepsParents` | src/github.com/docker/docker/daemon/image_delete.go:29-138 | no image that is left loses its parent, a closed graph stays closed, and walks stay finite |
| `DeleteSpec.DeletesNothingBusy` | src/github.com/docker/docker/daemon/image_delete.go:29-180 | without force no removed image is retained or in the ancestry of a container, and no removed ancestor had a reference |
| `DeleteSpec.PruningStopsAtNeeded` | src/github.com/docker/docker/daemon/image_delete.go:127-133 | pruning goes all the way: the first ancestor left is tagged, in use, or has another child, or some container has a history that is cut off |
| `DeleteSpec.DeleteLeavesNoDangling` | src/github.com/docker/docker/daemon/image_delete.go:29-138 | without force no reference points at a removed image afterwards |
| `DeleteSpec.ErrorAfterDeletionIff` | src/github.com/docker/docker/daemon/image_delete.go:127-133 | exactly when a call removes images and still reports an error: the parent of the named image is missing, or is untagged but in use, or some history is cut off |
| `DeleteSpec.ErrorAfterDeletionExample` | src/github.com/docker/docker/daemon/image_delete.go:127-133 | two images and a stopped container on the parent: the child is removed and the call fails |
| `DeleteSpec.PruningFailsIff` | src/github.com/docker/docker/daemon/image_delete.go:89-97 | exactly when the recursion on a parent reports an error |
| `DeleteSpec.DeleteIgnoresOtherRefs` | src/github.com/docker/docker/daemon/image_delete.go:127-133 | the recursion on a parent depends only on references to images still in the graph |
| `DeleteSpec.RefusedIff` | src/github.com/docker/docker/daemon/image_delete.go:41-97 | exactly when a call is refused and with which error, in terms of the graph, the references, what is in use and whose history is cut off |
| `DeleteSpec.AcceptedDoes` | src/github.com/docker/docker/daemon/image_delete.go:99-138 | a call that is not refused takes away the named reference or all of a named ID, and removes the image exactly when that leaves none and it has no children |
| `DeleteSpec.ObstacleKind` | src/github.com/docker/docker/daemon/image_delete.go:140-180 | which of the two errors an image that may not go gives |
| `DeleteSpec.NoEmptyRepository` | src/github.com/docker/docker/graph/tags.go:198-228 | a repository never stays behind empty |
| `ImageDelete.Daemon.AskContainer` | src/github.com/docker/docker/daemon/image_delete.go:163-177 | the walk of one container objects to an image that it uses, else to a parent that is missing |
| `ImageDelete.Daemon.CanDelete` | src/github.com/docker/docker/daemon/image_delete.go:140-180 | the error of the first container that objects, and none exactly when the image is not in use and no history is cut off |
| `ImageDelete.Daemon.References` | src/github.com/docker/docker/graph/tags.go:153-169 | lists every reference to the image once |
| `ImageDelete.Daemon.InSeveralRepos` | src/github.com/docker/docker/daemon/image_delete.go:63-84 | whether two of the references are in different repositories |
| `ImageDelete.Daemon.UntagEach` | src/github.com/docker/docker/daemon/image_delete.go:99-113 | removes the listed references one by one and repositories left empty |
| `ImageDelete.Daemon.TakeAway` | src/github.com/docker/docker/daemon/image_delete.go:99-116 | removes exactly the listed references and reports whether the image is then without references and children |
| `ImageDelete.Daemon.HasNoChildren` | src/github.com/docker/docker/graph/graph.go:444-458 | true exactly when no image has this parent |
| `ImageDelete.Daemon.Examine` | src/github.com/docker/docker/daemon/image_delete.go:41-97 | refuses exactly when the image is not there, is named by an ID that belongs to several repositories without force, is a parent that has references, or must be asked and is in use or some history is cut off; otherwise lists exactly the references to remove |
| `ImageDelete.Daemon.DeleteHelper` | src/github.com/docker/docker/daemon/image_delete.go:29-138 | the recursion over the shared stores computes the specified outcome, and the stores change by exactly what is reported |
| `ImageDelete.Daemon.Remove` | src/github.com/docker/docker/daemon/image_delete.go:114-138 | removes the image and prunes its parents while they are unneeded, as specified |
| `ImageDelete.Daemon.ImageDelete` | src/github.com/docker/docker/daemon/image_delete.go:17-27 | one call on the graph and the references: exactly when it is refused, and then nothing changes; otherwise exactly the named reference, or all of a named ID, is gone, and the image if and only if it has then no reference and no children; what is deleted is a stretch of the lineage, without force nothing in use and nothing still referenced, no image loses a parent that it had, and which result is reported |
| `PushListSpec.HoldsAncestors` | src/github.com/docker/docker/graph/push_v1.go:62-113 | a list with parents first holds all ancestors of each of its images |
| `PushListSpec.AppendWalk` | src/github.com/docker/docker/graph/push_v1.go:84-101 | appending a reversed walk keeps every image after its parent and every image once |
| `PushListSpec.AppendWalkSet` | src/github.com/docker/docker/graph/push_v1.go:84-101 | appending a walk that stops at the first listed image adds exactly the missing ancestors |
| `PushList.Walk` | src/github.com/docker/docker/graph/push_v1.go:84-96 | the walk is the part of the lineage above the first image already listed, and ends silently at a missing parent |
| `PushList.Reverse` | src/github.com/docker/docker/graph/push_v1.go:99-101 | the in-place swap loop reverses |
| `PushList.GetImageList` | src/github.com/docker/docker/graph/push_v1.go:62-113 | for every order of the tags: an image is listed, once, if and only if it is an ancestor of a tag that is no digest and is the one asked for if one was; every image after its parent; the tags of each image are exactly those, in order; an error exactly when there is nothing |
| `PoolSpec.PoolAddValid` | src/github.com/docker/docker/graph/tags.go:395-416 | adding keeps each key in at most one pool and each channel at one key, and a busy key yields the channel of its owner |
| `PoolSpec.PoolRemoveValid` | src/github.com/docker/docker/graph/tags.go:418-436 | removing takes out that key alone and closes its channel |
| `PoolSpec.RunValid` | src/github.com/docker/docker/graph/tags.go:395-436 | the invariant holds after every run of workers that remove only what they added |
| `PoolSpec.RunExcludes` | src/github.com/docker/docker/graph/pull_v2.go:77-87 | in every run at most one worker holds a key, over both pools |
| `PoolSpec.HandedIsClosedOnceOrHeld` | src/github.com/docker/docker/graph/pull_v2.go:180-192 | in every run a channel that was handed out is closed exactly once, or is still held and not closed |
| `PoolSpec.FinishReleasesWaiters` | src/github.com/docker/docker/graph/push_v2.go:60-63 | when the owner finishes, everyone waiting on it can go on |
| `PoolSpec.StrayRemoveIff` | src/github.com/docker/docker/graph/pull_v1.go:257-261 | after a removal by a worker that holds nothing, the next worker that starts on the key shares it with its holder if and only if there was one |
| `PoolSpec.StrayRunShares` | src/github.com/docker/docker/graph/pull_v1.go:257-261 | a run from the empty pool after which two workers hold the same key |
| `PoolStore.TagStore.PoolAdd` | src/github.com/docker/docker/graph/tags.go:395-416 | a valid pool stays valid; busy exactly when the key is in either pool, with the open channel of its owner and nothing changed; added exactly when it is in neither and the kind is known, to that pool under a fresh channel |
| `PoolStore.TagStore.PoolRemove` | src/github.com/docker/docker/graph/tags.go:418-436 | only an unknown kind is an error; afterwards that key is gone from that pool and nothing else, its channel is closed and no other, and never twice |
| `MonitorSpec.RunValid` | src/github.com/docker/docker/daemon/monitor.go:104-185 | the invariant holds after every interleaving of the monitor loop, stop requests and waiters |
| `MonitorSpec.StopIsHonoured` | src/github.com/docker/docker/daemon/monitor.go:72-83 | in every interleaving the stop and start channels and each wait channel are closed at most once, and at most one run begins after a stop request |
| `MonitorSpec.NoRunAfterStop` | src/github.com/docker/docker/daemon/monitor.go:126-185 | a stop request made past the top of the loop is followed by no run at all |
| `MonitorSpec.RunsBounded` | src/github.com/docker/docker/daemon/monitor.go:220-244 | on-failure with N > 0 allows at most N + 1 runs, a negative N and no policy at most one |
| `MonitorSpec.ChangeReleasesWaiters` | src/github.com/docker/docker/daemon/state.go:117-148 | a parked waiter stays parked until the next state change and is released by it |
| `MonitorSpec.BackoffExactIff` | src/github.com/docker/docker/daemon/monitor.go:190-216 | with 64-bit integers the wait is 100 * 2^k ms after k short runs if and only if k <= 36 |
| `MonitorSpec.BackoffOverflowExample` | src/github.com/docker/docker/daemon/monitor.go:190-216 | a run of 37 short rounds after which the wait is wrong |
| `MonitorSpec.OverflowTakesCenturies` | src/github.com/docker/docker/daemon/monitor.go:190-216 | the waits up to k = 36 add up to more than 400 years |
| `MonitorSpec.TotalSleepClosed` | src/github.com/docker/docker/daemon/monitor.go:211-216 | the closed form of the sum of the waits |
| `Monitor.State.Fire` | src/github.com/docker/docker/daemon/state.go:185-186 | the wait channel is closed and replaced by a fresh one |
| `Monitor.State.SetRunning` | src/github.com/docker/docker/daemon/state.go:177-187 | running under the process ID since that time, exit code and error cleared; waiters are released |
| `Monitor.State.SetStopped` | src/github.com/docker/docker/daemon/state.go:195-204 | not running, with the exit code and memory verdict of the run, and the time; waiters are released |
| `Monitor.State.SetRestarting` | src/github.com/docker/docker/daemon/state.go:208-221 | restarting, which counts as running, with the exit code and memory verdict of the run, and the time; waiters are released |
| `Monitor.ContainerMonitor.ExitOnNext` | src/github.com/docker/docker/daemon/monitor.go:72-83 | a request takes one action of the step system, at any point of the loop |
| `Monitor.ContainerMonitor.ShouldRestart` | src/github.com/docker/docker/daemon/monitor.go:220-244 | a restart if and only if no stop has been requested and the policy is always, or on-failure after a code other than zero with no limit or no more failures in a row than the limit |
| `Monitor.ContainerMonitor.Callback` | src/github.com/docker/docker/daemon/monitor.go:248-271 | the container runs with the process ID, the start signal is closed unless it already is, and it is one action of the step system |
| `Monitor.ContainerMonitor.EndRun` | src/github.com/docker/docker/daemon/monitor.go:141-157 | a failed first run ends the loop with exit code -1; otherwise the failures in a row, the backoff and the status of the run are recorded |
| `Monitor.ContainerMonitor.Leave` | src/github.com/docker/docker/daemon/monitor.go:114-121 | after any run the container is stopped, with the exit code and memory verdict of the last one |
| `Monitor.ContainerMonitor.OneRound` | src/github.com/docker/docker/daemon/monitor.go:126-184 | another round follows if and only if no stop was requested before or during this one, its logs started, it was not a failed first start and the policy restarts; exactly one run unless the logs fail |
| `Monitor.ContainerMonitor.Start` | src/github.com/docker/docker/daemon/monitor.go:104-185 | for every behaviour of the process, with stop requests before any step: the loop performs a run of the step system, so all that holds of every run holds of it; a fresh monitor does exactly the rounds that policy and world allow; under on-failure, without stops and logging errors, it ends only after an exit with code zero, a failed first start, or one failing run more than the limit; and a container that has run shows the exit code and memory verdict of its last run |
| `Monitor.OnFailureEnds` | src/github.com/docker/docker/daemon/monitor.go:218-244 | under on-failure a loop without stops and logging errors ends only after an exit with code zero, a failed first start or exactly one failing run more than the limit, and without a limit never after a failing run |
| `MonitorSpec.CountersCount` | src/github.com/docker/docker/daemon/monitor.go:104-207 | in every run of the step system the counters are the numbers of rounds, runs, runs after a stop request, and failures and short runs in a row that have happened |
| `MonitorSpec.WaitParks` | src/github.com/docker/docker/daemon/state.go:114-147 | who waits for a stop parks exactly while the container runs, who waits for a start exactly while it does not, on the current channel |
| `MergeSpec.AddMissingLookup` | src/github.com/docker/docker/runconfig/merge.go:26-43 | a name is looked up in the user list if it is there and else in the image list |
| `MergeSpec.AddMissingAssociative` | src/github.com/docker/docker/runconfig/merge.go:26-43 | merging ordered lists by name is associative, as lists |
| `MergeSpec.AddMissingKeeps` | src/github.com/docker/docker/runconfig/merge.go:26-43 | the user list stays as a prefix |
| `MergeSpec.MergedLookup` | src/github.com/docker/docker/runconfig/merge.go:26-43 | lookup in the merged environment, for every name |
| `MergeSpec.NamesAssociative` | src/github.com/docker/docker/runconfig/merge.go:13-24 | merging exposed ports or volumes is associative |
| `MergeSpec.MergeIdempotent` | src/github.com/docker/docker/runconfig/merge.go:9-65 | merging the same image again, or a configuration with itself, changes nothing |
| `MergeSpec.MergeAssociativeIff` | src/github.com/docker/docker/runconfig/merge.go:9-65 | merging is associative if and only if not: an entrypoint present but empty, over one that is set, with no command in either and a different one below |
| `MergeSpec.MergeNotAssociative` | src/github.com/docker/docker/runconfig/merge.go:45-53 | three configurations for which the order of merging decides the command |
| `Merge.FindKey` | src/github.com/docker/docker/runconfig/merge.go:29-38 | the inner loop finds the name exactly when some entry has it |
| `Merge.AddNames` | src/github.com/docker/docker/runconfig/merge.go:13-24 | a name is in the result exactly when it is in either; an unset or empty user map becomes the image map |
| `Merge.ContainerConfig.MergeEnvironment` | src/github.com/docker/docker/runconfig/merge.go:26-43 | the nested loops compute the specified list |
| `Merge.ContainerConfig.Merge` | src/github.com/docker/docker/runconfig/merge.go:9-65 | the merged configuration: user, working directory and entrypoint stay if set and else become those of the image, the command becomes that of the image only with neither an entrypoint nor a command of the user; the image is left alone |
| `EnvOverride.BuildCache` | src/github.com/docker/docker/utils/utils.go:163-167 | each name is mapped to its last position |
| `EnvOverride.ApplyOverrides` | src/github.com/docker/docker/utils/utils.go:169-185 | the loop over the overrides, with in-place rewriting and appending, gives the specified list |
| `EnvOverride.RewriteOne` | src/github.com/docker/docker/utils/utils.go:169-185 | one more override of a known name changes exactly the cell of its last default |
| `EnvOverride.CutBlanks` | src/github.com/docker/docker/utils/utils.go:188-193 | the in-place delete loop removes exactly the blank entries |
| `EnvOverride.ReplaceOrAppendEnvValues` | src/github.com/docker/docker/utils/utils.go:162-196 | defaults in order, each replaced by its last override or dropped if that is bare, then the overrides of unknown names in order; nothing is made up, nothing blank is left, and entries that no override is about stay as often as they were there |
| `EnvOverrideSpec.KnownNameLookup` | src/github.com/docker/docker/utils/utils.go:162-196 | for every list of defaults: a name that it has once gets its last override, the value given or none for a bare name; a name that it has several times keeps the value of its first entry |
| `EnvOverrideSpec.NewNameLookup` | src/github.com/docker/docker/utils/utils.go:162-196 | a name without default gets the value of its first override, whatever comes later |
| `EnvOverrideSpec.LastOverride` | src/github.com/docker/docker/utils/utils.go:169-193 | a name that the defaults have once: its last override gives its value, or takes it out of the list if it is bare |
| `EnvOverrideSpec.NewNameThere` | src/github.com/docker/docker/utils/utils.go:169-193 | a name without default is in the list afterwards exactly when some override gives it a value |
| `EnvOverrideSpec.UntouchedKept` | src/github.com/docker/docker/utils/utils.go:169-193 | an entry that no override is about stays as often as it was there |
| `EnvOverrideSpec.NothingInvented` | src/github.com/docker/docker/utils/utils.go:162-196 | every entry afterwards is a default or an override, and none is blank |
| `EnvOverrideSpec.LastDecidesIff` | src/github.com/docker/docker/utils/utils.go:162-196 | the last override of a name decides if and only if: for a new name, the first value given is what the last override says; for a known one, the defaults have it once, or its first entry has the value that the last override says |
| `EnvOverrideSpec.NewNameExample` | src/github.com/docker/docker/utils/utils.go:162-196 | two overrides of which the first wins for a new name, against the law, and the last for a known one |
| `EnvOverrideSpec.UnsetNewNameExample` | src/github.com/docker/docker/utils/utils.go:169-185 | a bare override after a value does not take back a new name |
| `EnvOverrideSpec.RepeatedDefaultExample` | src/github.com/docker/docker/utils/utils.go:163-167 | a default given twice, whose override lookup does not see |
| `PortsSpec.GroupShowsPort` | src/github.com/docker/docker/api/common.go:83-103 | the address and type shown for a group are those of its ports |
| `PortsSpec.StepConserved` | src/github.com/docker/docker/api/common.go:45-75 | one more port is counted once, and only port 0 can be lost |
| `PortsSpec.StepApart` | src/github.com/docker/docker/api/common.go:45-75 | without duplicates the ranges of one key stay apart |
| `Ports.GroupPorts` | src/github.com/docker/docker/api/common.go:45-75 | after the loop the groups hold exactly the unmapped ports, and the mappings are the mapped ones in order |
| `Ports.CloseGroups` | src/github.com/docker/docker/api/common.go:76-78 | closing the open groups loses and adds nothing, in any order of the map |
| `Ports.SortPorts` | src/github.com/docker/docker/api/common.go:44-44 | sorted by private port, and a permutation |
| `Ports.DisplayablePorts` | src/github.com/docker/docker/api/common.go:35-81 | expanding every range gives back the ports with their multiplicities, for port 0 if and only if it is alone in its key; ranges of one key neither touch nor overlap without duplicates; the host mappings are exactly the ports bound to an address under another number, as often as given, in order |
| `Ports.SortingKeeps` | src/github.com/docker/docker/api/common.go:44-44 | each of these conditions is one on the given list, whatever order equal ports are sorted into |
| `Ports.ZeroLostExample` | src/github.com/docker/docker/api/common.go:62-66 | two ports of which the group of port 0 is overwritten |
| `RetainedSpec.HoldPairs` | src/github.com/docker/docker/graph/graph.go:65-74 | holding adds one pair of session and layer and keeps holder sets non-empty |
| `RetainedSpec.DropPairs` | src/github.com/docker/docker/graph/graph.go:76-89 | dropping removes one pair and keeps holder sets non-empty |
| `RetainedSpec.HoldAllPairs` | src/github.com/docker/docker/graph/graph.go:65-74 | holding a list adds exactly its pairs |
| `RetainedSpec.DropAllPairs` | src/github.com/docker/docker/graph/graph.go:76-89 | dropping a list removes exactly its pairs |
| `RetainedSpec.HeldIff` | src/github.com/docker/docker/graph/graph.go:91-96 | a layer is listed exactly when some session holds it |
| `RetainedSpec.HeldIsActive` | src/github.com/docker/docker/builder/internals.go:132-134 | in every run of builds a session holds exactly its active images |
| `RetainedSpec.CloseReleasesOwn` | src/github.com/docker/docker/builder/job.go:215-217 | closing a build releases all it holds and nothing of others |
| `RetainedSpec.NestedReleaseIff` | src/github.com/docker/docker/graph/pull_v1.go:249-250 | after a session retains a list, retains another and releases that again, it holds the first list if and only if the two share no layer |
| `RetainedSpec.NestedReleaseExample` | src/github.com/docker/docker/graph/pull_v1.go:249-250 | a layer that nobody holds although its session has retained it twice and released it once |
| `Retained.RetainedLayers.Add` | src/github.com/docker/docker/graph/graph.go:65-74 | the nested maps gain exactly the pairs of the session and the layers |
| `Retained.RetainedLayers.Delete` | src/github.com/docker/docker/graph/graph.go:76-89 | they lose exactly those pairs, and no empty holder set remains |
| `Retained.RetainedLayers.Exists` | src/github.com/docker/docker/graph/graph.go:91-96 | true exactly when some session holds the layer |
| `Retained.Builder.Retain` | src/github.com/docker/docker/builder/internals.go:132-134 | the held layers stay exactly the active images; other sessions are unchanged |
| `Retained.Builder.Committed` | src/github.com/docker/docker/builder/internals.go:132-135 | the same for a commit, which also moves the image |
| `Retained.Builder.ProbeCache` | src/github.com/docker/docker/builder/internals.go:580-601 | a hit retains and moves the image, a miss busts the cache for good, an error changes nothing |
| `Retained.Builder.Release` | src/github.com/docker/docker/builder/job.go:215-217 | afterwards the session holds nothing and other sessions are unchanged |

## Left out

- Registry HTTP, TLS, authentication, tar streams, graph drivers, the file system and JSON encoding: outside input; a failure of any of them while a layer is downloaded, registered or recorded is a `Fault` parameter of the pull.
- ID abbreviations, name normalisation and repositories named like image IDs: `ImageDelete` takes a name that is already known to be a reference or an exact ID.
- The v1 migration of the images a pull may reuse: it either fails, which is a parameter, or has already happened in the graph given.
- A pull that waits for the download of another client: the pool key is released before the extraction, so the pull theorems are about one puller.
- The image mutex and its lock order.
- TagStore.TagStore.PullTag: assumes of those strong IDs of the manifest that are taken in the graph that hashing from them does not repeat within as many tries as the graph has entries, because otherwise the retry loop of the code need not end; it does not model the manifest digest that is computed after the extraction, nor a v1 migration that fails half-way with some of its files written.
- Pull.AttemptIDReuse: assumes the same.
- EnvOverrideSpec.LastDecidesIff: is about names that are not empty and have no `=`, the others not being names of variables.
- PullAgain.SecondPullIsIdleIff: assumes the same of both graphs, that the hash of an ID is never a strong ID (`HashesApart`), and that the strong IDs of the manifest differ, as they do without collisions on a plain base (`StrongIDsDistinct`).
- TagStore.TagStore.SetReference: does not model the validation of repository, tag and digest names, nor a failure to save the tag file.
- ImageDelete.Daemon.ImageDelete: assumes that walks along the parents end (`Acyclic`), as they do not in the code either if they do not in the graph.
- PushList.GetImageList: assumes the same.
- Manifest.FixManifestLayers: takes non-empty lists of equal length, which the verification of the manifest before it enforces (`src/github.com/docker/docker/graph/pull_v2.go:492-497`).
- DeleteSpec.DeletesNothingBusy: is about deletion without force; with force the code skips the check for images tagged in several repositories, and only the contiguity, the closure and the exact outcome are proved.
- ShellRoundTrip.PrintThenProcess: is about well-formed trees: names are names, single-quoted text has no quote and no NUL, and inside double quotes a backslash stands in front of a literal character, because no other tree is read back from its own print; the evaluator itself is modelled on all bytes, with the byte-wise UTF-8 re-encoding of the code.
- Monitor.ContainerMonitor.Start: takes the rounds that the world has in store as a finite list, so a loop that never ends is seen through its finite beginnings; clean-up, logs and events are not modelled.
- Monitor.ContainerMonitor.Callback: does not model closing the terminal and the write to disk.
- Merge.ContainerConfig.Merge: does not model that maps and slices of the image may afterwards be shared with the merged configuration, nor labels and the other fields that are not merged.
- Ports.DisplayablePorts: gives ranges and mappings as values, not their decimal text, and takes private ports as non-negative.
- BuilderEnv.Builder.Env: does not model builder flags, the commit that follows, nor the comment that is recorded for it.
- `createImageIndex`, `Heads`, `GetParentsSize` and `ImageReference` would only add easy members.
- The v1 pull and push beyond the order of images and the two findings above, `docker load`, ONBUILD and the other Dockerfile instructions.
