# Promotion kernel model

The promotion kernel is a deterministic gate. Strict JSON goes in (a work contract, a policy profile, policy packs); a
compiler turns it into a plan; an evaluator runs the plan's checks one by one, halting on integrity failures and
deadlines; a reducer decides PROMOTABLE or BLOCKED; every result is anchored in a content-addressed evidence store; a
receipt binds everything; and anyone can verify the receipt offline. A supervisor runs all of this in a worker process
and publishes its output or nothing.

This project models that chain for version 1 documents. Code that updates state is modelled by classes and methods with
loops, proved against specification functions and declarative predicates; code made of expressions is modelled by
functions. SHA-256 is an arbitrary function on bytes. Nothing is assumed of it but, in the evidence store, that it prints
digests; where two byte strings under one digest would break a statement, the statement names that collision. Validator
runs, clock and deadline readings, read counts of files, spawn results, worker behaviour and signature validity are
arbitrary inputs.

| part | modules |
|---|---|
| Strings, UTF-8, orders, sorting, records, schema patterns | Base, Text, Ordering, Sorting, MemberNames, Records, ShortRecords, Patterns, PatternText, Samples |
| Canonical JSON: grammar, parser, printer | Json, StrictJson, Grammar, GrammarSound, CanonicalJson, RoundTrip, CanonicalTheorems, Normalization, StrictParser, CanonicalText, StrictText, ParseRefusals, FirstError |
| Schema evaluation | JsonSchema, SchemaText, Subvalues, SchemaCycles |
| Byte streams: files, previews, framed output | Utf8Stream, BoundedFile, Base64Url, ProcessFrame, FrameTheorems, FrameText, Runner |
| Plans and their documents | Plan, Documents, DocumentText |
| Compiler | Packs, Compilation, Refusals, CompilerChecks, Kahn, KahnTheorems, PlanSchedule, PlanDraft, Compiler, CompilerTheorems, Strengthening, CompileText, PlanText |
| What canonical forms cost, and when a compilation throws | PrintCost, PlanSize, InputShapes, CompileBounds, CompileWitnesses |
| Evaluation and reduction | Evaluator, RunOutcomes, Reducer, ReducerTheorems, ReductionContents |
| Census | Census, CensusTheorems, CensusText |
| Evidence and receipts | EvidenceDocument, IndexSize, EvidenceStore, EvidenceVerifier, Receipt, ReceiptAssembly, Sealing, EvidenceWitnesses, Activation, EvidenceText |
| Publication | Publication, Worker, PublicationText |

Modules whose names end in Text, and ParseRefusals, FirstError, RunOutcomes and ReductionContents, say once more and
independently what an operation yields: in literal characters, words and numbers, from the inputs alone, without the
functions by which the operation is modelled. Each such statement is an equivalence.

`dafny verify dfyconfig.toml` checks the whole project.

## Findings

Where the code and what it promises part ways, the model follows the code, and the exact condition is proved.

- `src/evaluate.mjs:345` reads the command report's stdout before line 357 asks whether there is a report, so for target
  commands the branch at lines 368-369 is never taken. A verdict names TOOLCHAIN_UNRESOLVED exactly when a rejection
  comes with a report (`Evaluator.ToolchainCodeExactly`), and the runner rejects without one, so no result of a target
  command carries the code (`Evaluator.ToolchainCodeIsUnreachable`). A builtin's result may: it is an input here.
- `schemas/evidence-index.schema.json` admits 8192 artifacts, but the printer stops at 4096 and at a mebibyte. An index
  has a canonical form exactly when its artifacts, each at a cost that its own strings determine, fit both
  (`IndexSize.IndexPrintsExactly`). The first `finalize` of a store throws exactly when the schema refuses the index or
  the index does not fit; a second one always throws (`EvidenceStore.EvidenceIndex.Finalize`). Stores that the schema
  admits and that break one bound each are built and finalized, for any hash and any run, by
  `EvidenceWitnesses.ManyArtifactsAreNotFinalized` and `EvidenceWitnesses.LongArtifactsAreNotFinalized`.
- `src/evaluate.mjs:455-470` anchors each result under `result-` and its check id, and finalizes outside any `try`. The
  plan schema admits check ids of 128 characters, and so does the index schema for artifact ids; the prefix does not
  fit. An anchor is one the index schema admits exactly when its check id has at most 121 characters
  (`Sealing.AnchorShapedExactly`), so a plan with a longer one is never sealed: anchoring fails, or finalizing throws
  (`Sealing.SealRun`, which says exactly when each happens). What a target command leaves, at lines 348 and 360, is
  admitted exactly up to 114 characters (`Sealing.TargetArtifactsShapedExactly`).
- `src/compiler.mjs:349-353` can throw on inputs without any compile error. For a parsed contract, whose own digest is
  then always there (line 328), it does exactly when the plan the inputs promise, built in whatever order, misses a
  count of the plan schema or a bound of the printer (`Compiler.CompilePlan`, `PlanSize.PlanPrintsExactly`,
  `PlanDraft.PromisedPlanIsDraft`). For documents that their schemas admit, the plan meets every pattern and count of
  its own schema but one (`CompileBounds.DraftIsShaped`), and two things are left to go wrong: more than 4096 checks in
  all, or a plan longer than a mebibyte (`CompileBounds.OnlyCountAndLengthMatter`). 33 packs of 128 checks break the
  first, two packs of 128 checks with long ids the second, both with no kernel packs and with every name, version,
  commit and digest as the schemas want them (`CompileWitnesses.TooManyChecks`, `CompileWitnesses.TooLongAPlan`).
- `src/supervisor.mjs:105-109` swallows a directory that cannot be listed. An abort leaves nothing exactly when the
  directory can be listed, or had nothing to begin with and the abort came before `current` was flipped
  (`Publication.AbortIsCleanExactly`). A deadline that passes right after the flip, lines 247-249, leaves a fresh
  `current` that names a removed version (`Publication.LateDeadlineLeavesCurrent`), so wherever anything can be
  published, every abort is clean exactly when the directory can be listed (`Publication.EveryAbortIsCleanExactly`).
  Such runs exist for every hash, contract, artifact root and content (`Publication.PublishableRunExists`).
- `src/supervisor.mjs:185` throws on a summary whose text is `null`, and line 228 on a bundle member that is a folder and
  is listed before any member that does not match. The lock is released, nothing is published, and the version
  directory stays; the supervisor throws exactly then (`Publication.OutputDir.Supervise`). Any finished run with such a
  summary shows it (`Publication.NullSummaryLeavesVersion`), and so does any publishable run once a folder stands where
  its plan or its evidence index was (`Publication.FolderLeavesVersion`).
- `src/supervisor.mjs:222` compares key lists joined by NUL. Lists of names with NUL can collide
  (`Publication.JoinedNamesCanCollide`); no file has such a name, so the digest loop after it refuses them, or throws at a
  folder listed earlier. For a manifest that holds, the comparison is one of sets (`Publication.HeldNamesAreRequired`).
- `src/evidence.mjs:33-36` charges bytes and id before writing the object. Exactly a write that fails leaves them charged
  with nothing indexed (`EvidenceStore.EvidenceIndex.Put`), and the same put is refused from then on
  (`EvidenceStore.FailedWriteCannotBeRepeated`).

## Model

| member | source | states |
|---|---|---|
| CanonicalTheorems.ParsesExactlyTheGrammar | src/canonical-json.mjs:23-182 | the strict parser accepts a text as a value exactly when the text fits the byte bound and some valid syntax tree of the grammar (escapes, gaps, bounds, distinct keys, safe integers) renders to it and means the value; StrictText.ParsesExactly says the same in literal characters |
| CanonicalTheorems.ParseInvertsCanonicalize | src/canonical-json.mjs:23-227 | whatever the printer prints, the parser reads back as the same value, from the text and from its UTF-8 bytes |
| CanonicalTheorems.CanonicalizeIsInjective | src/canonical-json.mjs:186-227 | two printable values have equal canonical texts exactly when they are the same value, objects read as maps |
| CanonicalTheorems.CanonicalBytesAreInjective | src/canonical-json.mjs:233-239 | the bytes that are digested tell values apart as well as the text does |
| CanonicalTheorems.CanonicalTextWellFormed | src/canonical-json.mjs:198-218 | the canonical text of an acceptable value has no lone surrogate, so encoding and fatal decoding lose nothing |
| Normalization.CanonicalizeNormalizes | src/canonical-json.mjs:19-22 | for every parsed text the printer succeeds on the value, prints no more UTF-8 bytes than the text had, and the print parses to the same value |
| Normalization.PrintableIffParsable | src/canonical-json.mjs:19-22 | a value has a canonical form exactly when some text parses to it: parser and printer share one domain |
| Normalization.TreeNoShorter | src/canonical-json.mjs:198-218 | no valid spelling of a value, whatever its whitespace, escapes and key order, is shorter in bytes than its canonical text |
| RoundTrip.SerializeExact | src/canonical-json.mjs:187-221 | the printer succeeds exactly on the acceptable values (depth, string, array, key and integer bounds) and then renders their canonical syntax tree, whose text is spelled out by CanonicalText.CanonicalTextExactly |
| CanonicalText.CanonicalTextExactly | src/canonical-json.mjs:186-227 | in literal characters: where a value has a canonical form, it is its text, with escapes written as listed, members ascending code unit by code unit, commas and colons and no blanks, and these rules describe no other text |
| CanonicalText.PrintsOneText | src/canonical-json.mjs:198-218 | those rules give a value at most one text |
| CanonicalText.StringRefusals | src/canonical-json.mjs:198-202 | a string is refused for its length first and else for a lone surrogate |
| CanonicalText.ScalarRefusals | src/canonical-json.mjs:189-220 | numbers other than safe integers, -0 included, are refused as non-canonical, and what is no JSON as malformed |
| CanonicalText.ArrayRefusals | src/canonical-json.mjs:203-206 | an array is refused for its length, and else as its first refused item is |
| CanonicalText.ObjectRefusals | src/canonical-json.mjs:207-219 | an object is refused for its size, else as its first bad name is, else as its first refused value is, in the order of the names |
| CanonicalText.DocumentRefusals | src/canonical-json.mjs:222-226 | a document is refused as its value is, or for the bytes of its whole text |
| CanonicalText.SampleText | src/canonical-json.mjs:207-219 | the canonical text of one object, written out: the member named a comes first, a line feed and U+001F are escaped |
| Ordering.LessIsUnitBefore | src/canonical-json.mjs:212 | string order is decided by the first code unit that differs, the smaller one first, a proper prefix before what it begins |
| Ordering.SortedAscends | src/canonical-json.mjs:212 | the sorted list of a set of strings ascends in that order |
| Grammar.ValueComplete | src/canonical-json.mjs:111-176 | every valid rendering of a value, with any gap before it and any proper continuation after it, is parsed to its meaning |
| GrammarSound.ValueSound | src/canonical-json.mjs:111-176 | every successful parse consumed the rendering of some valid syntax tree with the parsed value as its meaning |
| StrictText.ParsesExactly | src/canonical-json.mjs:23-182 | in literal characters: the parser reads a text as a value exactly when the text is admitted by rules for blanks, brackets, braces, colons, commas, the three words, numerals, raw units, the eight one-letter escapes and four-digit escapes, and is within the bounds |
| ParseRefusals.BlanksBefore | src/canonical-json.mjs:44-46 | spaces, tabs, line feeds and carriage returns in front of a text change neither value nor error |
| ParseRefusals.BlanksAfter | src/canonical-json.mjs:44-46 | behind a text they leave its value as it is and make no value of a text that had none |
| ParseRefusals.BlanksAroundItems | src/canonical-json.mjs:147-169 | around the brackets and commas of an array they leave its value as it is |
| ParseRefusals.BlanksAroundMembers | src/canonical-json.mjs:116-146 | around the braces, colons and commas of an object they leave its value as it is |
| ParseRefusals.NoSuchStart | src/canonical-json.mjs:111-176 | a unit that is no blank and starts no value is refused, whatever follows |
| ParseRefusals.UnitInFront | src/canonical-json.mjs:111-182 | any unit but a blank put in front of a whole document is refused, except digits that make a longer numeral of it and a minus in front of a number |
| FirstError.NumeralIsRead | src/canonical-json.mjs:94-109 | what becomes of every sign, run of digits and continuation: the value, or which error |
| FirstError.StringIsRefused | src/canonical-json.mjs:55-92 | which error a string has, unit by unit: something that spells no unit, or one unit too many |
| FirstError.ArrayIsRefused | src/canonical-json.mjs:147-169 | how an array is refused behind items that are read: as its next value is, for its length, or for a missing comma or bracket |
| FirstError.NameIsRefused | src/canonical-json.mjs:125-133 | how an object is refused at a name: a bad one, a repeated one, one too many, no colon, in that order |
| FirstError.ObjectIsRefused | src/canonical-json.mjs:116-146 | how an object is refused behind members that are read |
| FirstError.TrailingIsRefused | src/canonical-json.mjs:178-181 | anything but blanks behind the value of a document is malformed |
| FirstError.DocumentIsRefused | src/canonical-json.mjs:36-38 | a text that is too long is out of bounds whatever is in it, and any other is refused as its value is |
| FirstError.BytesAreRead | src/canonical-json.mjs:28-35 | bytes that are the UTF-8 of no well-formed text are malformed, all others are read as that text is |
| Subvalues.WithinHasCanonicalForm | src/canonical-json.mjs:186-227 | every part of a value with a canonical form has one itself |
| StrictParser.Cursor.SkipBlank | src/canonical-json.mjs:44-46 | the cursor stops after exactly the run of blanks; that blanks are U+0020, U+0009, U+000A and U+000D is part of ParseRefusals.BlanksBefore and ParseRefusals.NoSuchStart |
| StrictParser.Cursor.Literal | src/canonical-json.mjs:47-54 | a keyword is consumed exactly when the text has it at the cursor |
| StrictParser.Cursor.StringUnit | src/canonical-json.mjs:67-89 | one turn of the string loop reads one raw or escaped unit as the grammar spells it |
| StrictParser.Cursor.StringLiteral | src/canonical-json.mjs:55-92 | the string loop agrees with the grammar's strings on value, rest and first error, its length bound tested after every unit |
| StrictParser.Cursor.Number | src/canonical-json.mjs:94-109 | the number scanner accepts exactly the safe-integer numerals other than -0 and names the error otherwise |
| StrictParser.Cursor.Value | src/canonical-json.mjs:111-176 | the recursive cursor parser agrees with the grammar's parse of the remaining text on value, rest and error |
| StrictParser.Cursor.Items | src/canonical-json.mjs:155-168 | the array loop collects the items the grammar reads, with the item bound checked after each push |
| StrictParser.Cursor.Members | src/canonical-json.mjs:125-145 | the object loop collects the members the grammar reads, refusing repeated keys and too many of them |
| StrictParser.ParseStrict | src/canonical-json.mjs:23-182 | the imperative parser returns what the grammar-level parser returns on the whole text, trailing content refused |
| StrictParser.ParseStrictBytes | src/canonical-json.mjs:23-35 | on bytes, parsing first decodes UTF-8 fatally and then parses the text |
| Text.DecodeInvertsEncode | src/canonical-json.mjs:28-36 | decoding the UTF-8 of well-formed text gives the text back |
| Text.EncodeInvertsDecode | src/canonical-json.mjs:28-36 | whatever decodes fatally, with no byte order mark dropped, re-encodes to the same bytes |
| Text.EncodeScalarExactly | src/canonical-json.mjs:28-36 | the bytes of a character, bit by bit, in its shortest form (section 3 of RFC 3629) |
| Text.WellFormedExactly | src/canonical-json.mjs:62-66 | a text is well formed exactly when every surrogate in it is half of a pair |
| JsonSchema.DeepEqualIsEquality | src/json-schema.mjs:9-15 | comparing canonical texts is equality of values on the values that have a canonical form |
| JsonSchema.ItemKeysCollide | src/json-schema.mjs:92-104 | two positions of an array share a uniqueness key exactly when they hold the same printable value; the fallback keys never collide with a canonical text |
| JsonSchema.RankIsIrrelevant | src/json-schema.mjs:26-125 | the satisfaction relation does not depend on the termination rank it is defined with |
| SchemaText.TypesExactly | src/json-schema.mjs:43-56 | which type names each kind of value answers to |
| SchemaText.FitsExactly | src/json-schema.mjs:43-120 | what the keywords ask that look at the value alone, bound by bound |
| SchemaText.SatisfiesExactly | src/json-schema.mjs:26-125 | a schema asks its reference and nothing else, or exactly one alternative, its keywords, and its subschemas of the items and of the members that are there |
| JsonSchema.Visit | src/json-schema.mjs:26-125 | a visit that does not throw adds exactly the errors, path and complaint, that the value gives rise to, none exactly when it satisfies the schema, and it throws only on an unresolvable reference |
| JsonSchema.CountPassing | src/json-schema.mjs:31-42 | the branch loop counts exactly the alternatives that accept the value |
| JsonSchema.VisitValue | src/json-schema.mjs:43-65 | type, const and enum stop the visit exactly when one of them fails, with the complaint of the first that fails and value equality in const and enum |
| JsonSchema.VisitScalar | src/json-schema.mjs:66-84 | string and number keywords report exactly their violations, each by its own complaint |
| JsonSchema.VisitUnique | src/json-schema.mjs:92-104 | the seen-set loop reports nothing exactly when no printable item occurs twice, and else that items are not unique |
| JsonSchema.VisitKeys | src/json-schema.mjs:109-120 | exactly the missing required keys and the undeclared ones are reported, by name |
| JsonSchema.ValidateAgainstSchema | src/json-schema.mjs:17-130 | the errors are exactly those the value gives rise to, wherever in it they are; there is none exactly when the value satisfies the root schema; with resolvable references nothing throws |
| SchemaCycles.RankExistsExactly | src/json-schema.mjs:27-42 | the rank the termination proof needs exists exactly when no chain of references and alternatives returns to a definition without consuming part of the value |
| Subvalues.ParsedEqualityIsExact | src/json-schema.mjs:9-15 | anywhere inside a parsed document the evaluator's equality is equality of values |
| Subvalues.ParsedUniquenessIsExact | src/json-schema.mjs:92-104 | inside a parsed document uniqueItems means pairwise different values, with no exception |
| ProcessFrame.Forwarder.OnData | src/process-tree-supervisor.mjs:102-119 | after any sequence of chunks each stream has passed on exactly its first maxOutputBytes bytes, and the overflow flag and kill are set exactly when some stream went over |
| ProcessFrame.LastMarkerIsOurs | src/sandbox.mjs:268-272 | whatever bytes the target wrote, marker copies included, the last marker in the stream is the supervisor's |
| ProcessFrame.ReportIsRead | src/sandbox.mjs:282-295 | the shape check accepts every report a supervisor can make and returns it unchanged |
| Base64Url.DecodeInvertsEncode | src/process-tree-supervisor.mjs:78-81 | the unpadded base64url form (section 5 of RFC 4648) uses only its alphabet, has length ceil(4n/3) and decodes to the bytes |
| FrameText.EncodesGroup | src/process-tree-supervisor.mjs:78-81 | the encoding group by group, in the characters of the alphabet's table (section 5 of RFC 4648) |
| FrameTheorems.UnframeInvertsFrame | src/sandbox.mjs:267-296 | unframing the target's bytes followed by the framed report gives back exactly those bytes and that report |
| FrameText.FrameIsWritten | src/process-tree-supervisor.mjs:78-137 | the frame, literally: the marker, the base64url of the report's JSON text with its eight members in order, and a line feed |
| FrameText.ReadsExactly | src/sandbox.mjs:282-295 | a parsed object is a report exactly when it has the version, the class and the six members of the right types |
| FrameText.UnframesExactly | src/sandbox.mjs:267-296 | a stream carries a report exactly when it ends in the last marker, a payload and a line feed, and the payload is the base64url of a report's JSON text |
| FrameTheorems.FrameFits | src/sandbox.mjs:405-405 | output within the ceiling plus the frame fits in maxOutputBytes + 65536 |
| Runner.Clamp | src/runner.mjs:154-159 | the clamp keeps the first maxOutputBytes bytes and says whether it cut |
| Runner.Recover | src/runner.mjs:131-148 | a normally ended supervised run has its stream, status and signal replaced by what its report says, any other keeps its own, and parsing fails exactly when there is no report or it does not match the compiled requirement |
| Runner.Capture | src/runner.mjs:153-208 | for commands without a requirement and for supervised ones: streams, exit code, signal, truncation, timeout, spawn failure, task-budget flag, limit events and success are each given exactly by the spawn, its error and the report |
| Runner.RunBounded | src/process-tree-supervisor.mjs:92-136 | end to end: for every chunking of every child output, the parent captures exactly the forwarded prefixes and the supervisor's report, and truncation is reported exactly when a stream exceeded the ceiling |
| Runner.Forward | src/process-tree-supervisor.mjs:102-119 | feeding all chunk events leaves the prefixes and the overflow flag of the whole streams |
| BoundedFile.HashBoundedRegularFile | src/bounded-file.mjs:49-113 | under every sequence of short reads a successful result is the hash and length of the whole file, its exact preview prefix, and whether the whole file is UTF-8; each of the four failures occurs exactly under its own condition, an early end of the reads included |
| BoundedFile.CopyInto | src/bounded-file.mjs:76-78 | a chunk is copied into the preview at its offset and nowhere else |
| BoundedFile.StreamDecoder.Decode | src/bounded-file.mjs:79-85 | the streaming decoder keeps exactly the unfinished tail of what it has been fed |
| Utf8Stream.FeedAllDecidesUtf8 | src/bounded-file.mjs:79-94 | feeding a file in chunks and flushing succeeds exactly when the whole file is well-formed UTF-8 (sections 3 and 4 of RFC 3629) |
| Utf8Stream.PendingSplit | src/agent-projection.mjs:319-331 | what has been fed without failure is a well-formed prefix and an unfinished tail of at most three bytes |
| BoundedFile.DecodePreview | src/agent-projection.mjs:319-331 | the result is the longest well-formed prefix among those at most three bytes shorter, decoded; none is returned only if none of those is well formed |
| BoundedFile.PreviewOfUtf8File | src/agent-projection.mjs:319-331 | every prefix of a UTF-8 file has such a prefix, so the preview of one is never given up |
| BoundedFile.InspectText | src/agent-projection.mjs:319-331 | the preview of a file validated as UTF-8 is decoded to its whole characters, dropping only the start of one unfinished character |
| Documents.CanonicalDigestIsInjective | src/canonical-json.mjs:237-239 | equal canonical digests mean equal values exactly when the canonical bytes are no collision of the hash |
| DocumentText.WordsAreNamed | src/census.mjs:23-34 | the words for phases, effects, consumers and outcomes |
| DocumentText.ResultIsObject | src/evaluate.mjs:395-407 | the members of a check result's document, literally |
| DocumentText.PlanIsObject | src/compiler.mjs:277-346 | the members of a plan's document, of its checks, sources and pins, literally |
| DocumentText.IndexIsObject | src/evidence.mjs:37-50 | the members of an index document, of its binding and artifacts, literally |
| DocumentText.ControlIsObject | src/activation.mjs:41-54 | the members of what a fingerprint is the canonical form of, literally |
| DocumentText.EntryIsObject | src/census.mjs:36-47 | the members of what a census key is the canonical form of, literally |
| PatternText.KebabExactly | schemas/evidence-index.schema.json:58 | a kebab-case id is words of a-z and 0-9 with single hyphens between them, at most 128 characters |
| PatternText.SemverExactly | schemas/evidence-index.schema.json:31 | a version is three natural numbers, without leading zeros, with dots between them |
| PatternText.DigestExactly | schemas/evidence-index.schema.json:60 | a digest is `sha256:` and 64 lower-case hexadecimal digits, which alone name the object |
| PatternText.ValidatorExactly | schemas/evidence-index.schema.json:61-65 | a validator id is a versioned kebab-case name or `target:sha256:` and 64 hexadecimal digits |
| Documents.PlanDigestIdentifiesPlan | src/compiler.mjs:353-358 | equal plan digests mean the same plan, every check, pin and dependency list included, exactly when the plans are no collision |
| Documents.ResultDigestIdentifiesResult | src/evaluate.mjs:455-461 | equal result digests mean the same check result exactly when the results are no collision |
| Documents.TargetIdsNeverAlias | src/census.mjs:161-167 | two target commands that share a validator id run the same argv exactly when the argvs are no collision |
| Kahn.PackOrder | src/compiler.mjs:173-196 | the indegree loop with its sorted frontier terminates on every duplicate-free dependency map and yields the greedy order: at each step the least ready pack, until none is ready |
| Kahn.Release | src/compiler.mjs:187-195 | one turn counts down exactly the dependents of the taken pack and queues, in order, those that reach zero |
| KahnTheorems.GreedyRespects | src/compiler.mjs:175-196 | the order repeats nothing, holds only selected packs and puts every dependency first |
| KahnTheorems.CompleteExactlyWhenAcyclic | src/compiler.mjs:197-199 | the order covers all packs exactly when the dependency graph has no cyclic walk, so DEPENDENCY_CYCLE is exact |
| KahnTheorems.GreedyIsLeastTopological | src/compiler.mjs:173-196 | of all topological orders the result is the first in dictionary order |
| KahnTheorems.GreedyIsUnique | src/compiler.mjs:173-196 | a dependency graph has one such order, however the packs and dependencies were listed |
| Packs.DuplicateIds | src/contracts.mjs:73-81 | the ids returned are exactly those occurring more than once |
| Packs.PackErrors | src/contracts.mjs:266-292 | each pack rule (repeated check, repeated or self dependency, undeclared phase, blocking evidence-only check) is reported exactly for its offenders |
| Packs.LawfulExactly | src/contracts.mjs:266-292 | a pack is lawful exactly when none of those violations exists |
| Packs.PlanErrors | src/contracts.mjs:304-318 | exactly the repeated check ids and the dependencies without an earlier place are reported, so nothing is exactly when ids are distinct and dependencies precede |
| Compilation.SelectedFacts | src/compiler.mjs:99-133 | the selected packs are the kernel's plus the supplied ones the profile names, one per id, all lawful |
| CompilerChecks.IndexSupplied | src/compiler.mjs:99-103 | packs by id, the later replacing the earlier, with DUPLICATE_PACK_ID exactly for repeated ids |
| CompilerChecks.KernelConflicts | src/compiler.mjs:109-118 | POLICY_CONFLICT exactly for kernel packs that the profile re-declares or the target supplies |
| CompilerChecks.SelectPacks | src/compiler.mjs:104-133 | selection takes up exactly the named supplied packs and reports exactly the missing, version-mismatched and digest-mismatched ones |
| CompilerChecks.UnselectedPacks | src/compiler.mjs:134-138 | PACK_NOT_SELECTED exactly for supplied packs the profile does not name |
| CompilerChecks.DependencyErrors | src/compiler.mjs:140-151 | dependency errors exactly for pins no selected pack meets by version or by digest |
| CompilerChecks.PhaseErrors | src/compiler.mjs:157-171 | PHASE_ORDER_CONFLICT exactly for dependency checks in a later phase than the pack's earliest check |
| CompilerChecks.OwnerErrors | src/compiler.mjs:201-222 | first owner of each check id, duplicates exactly for ids offered twice, unknown validators exactly for unknown builtins and inadmissible executables |
| CompilerChecks.StrengthenErrors | src/compiler.mjs:250-260 | strengthening errors exactly for unknown ids and evidence-only checks |
| Refusals.CompilableExactly | src/compiler.mjs:78-262 | the error list is empty exactly when the inputs meet the declarative conditions: pins agree, the profile selects exactly the supplied packs, dependencies met, phases agree, no cycle, checks distinct, validators known, strengthening admissible |
| CompileText.SelectedExactly | src/compiler.mjs:99-133 | the packs that take part are the kernel's and, for each selection of another id, the last supplied pack of that id |
| CompileText.RefusedExactly | src/compiler.mjs:78-262 | each of the eighteen reasons for a refusal, read off the documents alone, holds exactly when the compiler lists it |
| Compiler.CheckInputs | src/compiler.mjs:78-262 | an error is in the list exactly when its violation holds of the inputs |
| Compiler.PlanChecks | src/compiler.mjs:264-309 | the planned checks are, pack by pack in pack order, the planned form of every check with the sorted ids of all checks of its dependencies |
| Compiler.CompilePlan | src/compiler.mjs:50-360 | compilation stops at the first unlawful document with exactly its violations, refuses exactly the inputs that are not compilable with exactly their violations, throws exactly when they are compilable and the drafted plan does not fit the plan schema's counts and the printer, and otherwise yields the promised plan with its canonical bytes |
| PlanDraft.PromisedPlanIsDraft | src/compiler.mjs:264-335 | the promised plan is the draft, taken up in input order, with its checks and pins permuted, so one fits exactly when the other does |
| PlanSize.PlanPrintsExactly | src/compiler.mjs:353 | a plan has a canonical form exactly when its lists, strings and numbers are within the printer's bounds and its cost, summed check by check and pin by pin, is at most a mebibyte |
| PlanSize.FitIgnoresOrder | src/compiler.mjs:310-334 | whether a plan fits does not depend on the order of its checks and pins |
| CompileBounds.OnlyCountAndLengthMatter | src/compiler.mjs:349-353 | for inputs that their schemas admit, patterns included, a compilable plan fits exactly when the selected packs have at most 4096 checks and the plan's cost is at most a mebibyte |
| CompileBounds.DraftIsShaped | src/compiler.mjs:317-352 | the plan of inputs that their schemas admit meets every pattern and count of the plan schema except, possibly, its greatest number of checks |
| CompileWitnesses.TooManyChecks | src/compiler.mjs:349-352 | 33 packs of 128 checks meet every pattern and bound of their schemas and are compilable, and their 4224 checks do not fit the plan |
| CompileWitnesses.TooLongAPlan | src/compiler.mjs:353 | two packs of 128 checks with 128-letter ids, one depending on the other, meet every pattern and bound of their schemas and are compilable, and their plan of 256 checks is longer than a mebibyte |
| PlanSchedule.DependsOnIsExact | src/compiler.mjs:268-298 | each check's dependsOn is, increasing, exactly the check ids of the packs its pack declares as dependencies |
| PlanSchedule.PlanRulesNeverFire | src/contracts.mjs:304-318 | on every compiled plan check ids are distinct and dependencies precede, so DUPLICATE_CHECK_ID and PLAN_ORDER_VIOLATION have nothing to report |
| PlanText.OrderExactly | src/compiler.mjs:173-196 | the pack order: always the least id, code unit by code unit, among the packs whose dependencies are all placed, until there is none |
| PlanText.PromisedExactly | src/compiler.mjs:264-346 | the promised plan, read off the documents: head and pins, each check with its settings, its effect and the ascending ids of what it depends on, ordered by phase, place of the pack, and id |
| CompilerTheorems.ReorderingChangesNothing | src/compiler.mjs:99-138 | permuting the supplied packs, the checks or dependencies in a pack, the selections or the strengthen list, digests held fixed, changes neither lawfulness nor compilability nor which plan is promised |
| CompilerTheorems.PlanIsUnique | src/compiler.mjs:264-335 | compilable inputs have exactly one plan |
| Strengthening.EveryCheckIsPlannedOnce | src/compiler.mjs:264-309 | every check of every kernel and selected pack is planned exactly once, with its pack, phase, validator, settings and consumer, at no weaker effect |
| Strengthening.CompiledPlansHaveShape | src/compiler.mjs:250-282 | a compiled plan has distinct checks and no BLOCKING check whose result is evidence only |
| Strengthening.StrengtheningKeepsPlaces | src/compiler.mjs:310-315 | extra strengthening changes effects in place: the plans list the same checks in the same order |
| Strengthening.StrengtheningIsMonotone | src/compiler.mjs:250-282 | if a run is PROMOTABLE under a profile that strengthens more, the run with the same outcomes and deadline readings is PROMOTABLE without the extra strengthening |
| Reducer.ReduceDisposition | src/reducer.mjs:26-108 | the two loops compute the reduction as the left-to-right composition of receiving results and consuming checks; what it lists is spelled out by ReductionContents.ReductionListsExactly |
| ReducerTheorems.PromotableExactly | src/reducer.mjs:36-100 | PROMOTABLE exactly when all results are well formed and bound, pairwise distinct in checkId, and every reducer-routed BLOCKING check has a PASS |
| ReducerTheorems.ReceiveCleanly | src/reducer.mjs:36-61 | receiving complains exactly when some result is unbound or a check is answered twice |
| ReducerTheorems.ConsumeBlocks | src/reducer.mjs:65-96 | consuming adds a reason exactly for a deciding check without a PASS |
| ReductionContents.BindsExactly | src/reducer.mjs:48-59 | a result is bound exactly when the plan's last check of its id has its pack and effect, and plan and candidate are this run's |
| ReductionContents.FiledCounts | src/reducer.mjs:36-61 | the result that counts for a check is the first bound one of its id |
| ReductionContents.ReductionListsExactly | src/reducer.mjs:26-108 | for every plan and results: a code is listed exactly when a result is malformed or unbound, one is a duplicate, a deciding check is unanswered, or the result that counts for one fired, failed or was skipped, with that outcome's code and its own; codes ascend; consumed, advisory and evidence-only entries are, in plan order, those of the answered checks with id, effect, outcome and codes |
| ReducerTheorems.DispositionIgnoresOrder | src/reducer.mjs:25-25 | the disposition is the same for every permutation of the results, duplicates and forgeries included |
| ReducerTheorems.ReductionIgnoresOrder | src/reducer.mjs:63-105 | with distinct checkIds the reason codes and the consumed, advisory and evidence-only lists are permutation-invariant too |
| ReducerTheorems.NonDecidingResultsNeverBlock | src/reducer.mjs:89-95 | replacing the outcome of an advisory or evidence-only check never changes the disposition |
| Evaluator.Evaluate | src/evaluate.mjs:251-430 | one result per check in plan order; nothing runs after a halt; the halt code is kept; a run halts only after a failing blocking admission or integrity check, or at an expired deadline; what is recorded is spelled out by RunOutcomes.RunIsRecorded |
| RunOutcomes.TargetIsRecorded | src/evaluate.mjs:314-413 | what is recorded of a target command: PASS exactly when budget was left, it was run, captured, not timed out, within its budget, successful, both puts went through, the deadline had not expired, and the result is valid; each other outcome, code and evidence list under its own exact condition |
| RunOutcomes.BuiltinIsRecorded | src/evaluate.mjs:291-413 | a builtin's outcome, codes and evidence are carried over when the result is valid and are an infrastructure failure otherwise |
| RunOutcomes.HaltsExactly | src/evaluate.mjs:422-429 | a result halts the run exactly when it is a failure of a blocking check of admission or of one of the four integrity checks |
| RunOutcomes.RunIsRecorded | src/evaluate.mjs:251-430 | every result of every run, check by check: what its turn gives, up to the first halt or expired deadline, and skipped with the reason from there on |
| Evaluator.RunIsBound | src/evaluate.mjs:395-407 | every result of a run is bound to its plan, and no check is answered twice |
| Evaluator.RunPromotableExactly | src/evaluate.mjs:440-440 | the reduction of a run is PROMOTABLE exactly when every deciding check ran and passed |
| Evaluator.CompiledRunPromotableExactly | src/evaluate.mjs:440-440 | on compiled plans: exactly when every BLOCKING check ran and passed |
| Evaluator.CheckHaltBlocks | src/evaluate.mjs:419-429 | a halt caused by a check always ends in BLOCKED |
| Evaluator.DeadlineHaltBlocksExactly | src/evaluate.mjs:258-275 | a deadline halt after only passing blocking checks blocks exactly when a blocking check remained |
| Evaluator.ToolchainCodeExactly | src/evaluate.mjs:345-381 | over every reply a runner could give, a target verdict names TOOLCHAIN_UNRESOLVED exactly when a rejection comes with a report and both puts go through |
| Evaluator.ToolchainCodeIsUnreachable | src/runner.mjs:82-98 | the runner rejects without a report, so no target command's result names TOOLCHAIN_UNRESOLVED, and an unresolved executable is recorded as an infrastructure failure without evidence |
| EvidenceStore.EvidenceIndex.Put | src/evidence.mjs:26-39 | each of the four failures occurs exactly under its own guard, success under none; success indexes the artifact and stores its object; a failed write charges its bytes and id and indexes nothing; every other refusal changes nothing; a sound store stays sound exactly when no indexed artifact has the new digest at another length, as without a collision none has |
| EvidenceStore.FailedWriteCannotBeRepeated | src/evidence.mjs:28-36 | after a failed write the same put is refused as already indexed, with the bytes still charged |
| EvidenceStore.EvidenceIndex.Finalize | src/evidence.mjs:43-56 | finalizing once yields the index of the artifacts sorted by id, lawful and shaped as its schema wants, with its canonical bytes and digest; each of the three failures (already final, refused by the schema, not printable) occurs exactly under its own condition |
| EvidenceStore.StoredGrows | src/evidence.mjs:35-37 | writing an object under its digest keeps every indexed object intact and nothing undeclared in the store exactly when no indexed artifact has that digest at another length |
| EvidenceStore.NoCollisionNoClash | src/evidence.mjs:35-37 | in a sound store only a collision with a stored object can give one digest two lengths |
| EvidenceStore.SortedArtifactsLawful | src/contracts.mjs:353-361 | distinct artifacts sorted by id satisfy the index rules, so uniqueness and order never stop a finalization |
| EvidenceText.FinalizedAscends | src/evidence.mjs:49 | the index lists exactly the artifacts that were put, by ascending id, code unit by code unit |
| EvidenceText.IndexLawfulExactly | src/contracts.mjs:353-361 | an index obeys its rules exactly when its ids ascend in that order |
| EvidenceText.IndexShapedExactly | schemas/evidence-index.schema.json:1-67 | what the index schema admits, in numbers and literal characters: counts, ids, digests, commits, versions, validator ids and media types |
| EvidenceStore.TotalIgnoresOrder | src/evidence.mjs:88-92 | the sum of declared lengths does not depend on the artifacts' order |
| EvidenceDocument.IndexDigestIdentifiesIndex | src/evidence.mjs:53-55 | an index digest pinned elsewhere admits one index document only, exactly unless two collide |
| IndexSize.IndexPrintsExactly | src/evidence.mjs:51-53 | an index has a canonical form exactly when it has at most 4096 artifacts and pins, printable members, and a cost, summed artifact by artifact, of at most a mebibyte |
| EvidenceWitnesses.TooManyArtifacts | src/evidence.mjs:51-53 | an index of 4097 artifacts, each as the schema wants it, is admitted by the schema and has no canonical form |
| EvidenceWitnesses.TooLongArtifacts | src/evidence.mjs:51-53 | an index of 3200 such artifacts with 128-letter ids is admitted by the schema, and would be longer than a mebibyte |
| EvidenceWitnesses.ManyArtifactsAreNotFinalized | src/evidence.mjs:26-56 | for every hash that prints digests and every run, 4097 puts into a new store succeed, leave it sound, and finalizing it fails at the printer |
| EvidenceWitnesses.LongArtifactsAreNotFinalized | src/evidence.mjs:26-56 | the same with 3200 puts under 128-letter ids |
| EvidenceWitnesses.SmallStoreIsFinalized | src/evidence.mjs:19-56 | for every hash that prints digests and every bytes, a new store with one put is sound and is finalized |
| PrintCost.CostOfRecord | src/canonical-json.mjs:207-218 | an object's canonical text costs one byte and, for each member, its printed name, two bytes and its value, whatever the order |
| PrintCost.CostOfArray | src/canonical-json.mjs:203-206 | an array's canonical text costs its brackets, its commas and its items |
| EvidenceVerifier.InspectArtifact | src/evidence.mjs:97-119 | an object gives no error exactly when it is a regular file with the declared digest and length, and else exactly the errors of what is wrong |
| EvidenceText.ObjectIsNamed | src/evidence.mjs:90 | the object of a digest is named by what follows `sha256:` |
| EvidenceVerifier.VerifyEvidenceDir | src/evidence.mjs:63-135 | a directory is accepted exactly when its index reads, its objects are exactly the declared ones, each hashes to its name at its length, and the sum fits the ceiling; each refusal occurs exactly under its condition, and the errors listed are exactly those of the artifacts up to the ceiling and of the entries |
| EvidenceVerifier.FinalizedStoreVerifies | src/evidence.mjs:43-56 | what a finalized index wrote is accepted by the verifier, at every ceiling its bytes fit, exactly when the store is sound |
| Receipt.SameCanonicalIsEquality | src/receipt.mjs:162-167 | comparing canonical forms, where both exist, is comparing values |
| Receipt.BindingErrors | src/receipt.mjs:152-167 | a replay error exactly when plan digest, repository, base, candidate, contract, profile, packs or capability index differ |
| Receipt.ReplayErrors | src/receipt.mjs:177-183 | a mismatch exactly when disposition or reason codes are not what the reducer makes of the receipt's results |
| Receipt.AnchorErrors | src/receipt.mjs:232-249 | exactly the references without an artifact, those whose artifact has another check or digest, and a missing or different anchor are reported; the anchor has to carry the digest of the result's canonical bytes |
| EvidenceText.RefHoldsExactly | src/receipt.mjs:231-239 | a reference holds exactly when the last artifact of its id has its digest and its check |
| EvidenceText.AnchoredExactly | src/receipt.mjs:243-248 | a result is anchored exactly when the last artifact called `result-` and its check id has the digest of its canonical bytes |
| Receipt.VerifyReceipt | src/receipt.mjs:149-262 | a receipt is accepted exactly when all bindings agree, results bind, the reduction reproduces, the signature rule holds, and the evidence, if given, verifies and anchors every result; a refused one lists exactly the errors of what fails, and verification throws exactly when something it compares has no canonical form |
| Receipt.VerifiedPromotable | src/receipt.mjs:205-251 | a receipt that verifies with its store and says PROMOTABLE has, for every deciding check, a PASS result bound to plan and candidate, and bytes in the store under the digest of its canonical bytes, which are those bytes exactly unless the two collide |
| Receipt.StoredBytesIdentifyResult | src/receipt.mjs:243-248 | those bytes are the bytes of no other result |
| ReceiptAssembly.AnchorResults | src/evaluate.mjs:453-468 | every result gets an anchor artifact with the digest of its canonical bytes, after all earlier artifacts, exactly when all can be anchored: planned, printable, under ids neither taken nor repeated, writable, and within what is left of the ceiling; without a collision at hand the store stays sound |
| ReceiptAssembly.AnchorIdsDiffer | src/evaluate.mjs:455-458 | anchor ids repeat exactly when check ids do |
| EvidenceText.AnchorExactly | src/evaluate.mjs:455-463 | an anchor is a JSON artifact called `result-` and the check id, with the canonical text's bytes, digest and length |
| Sealing.AnchorShapedExactly | src/evaluate.mjs:455-463 | the anchor of a planned check's result is an artifact the index schema admits exactly when the check id has at most 121 characters |
| Sealing.TargetArtifactsShapedExactly | src/evaluate.mjs:347-366 | the ids under which a target command's output and report are put are admitted exactly when the check id has at most 114 characters |
| Sealing.ArtifactOrderIsFree | src/evidence.mjs:46-51 | sorting the artifacts changes neither whether the schema admits the index nor whether it can be printed |
| Sealing.Seal | src/evaluate.mjs:453-470 | anchoring fails exactly when some result cannot be anchored; otherwise finalizing succeeds exactly when the index of what was put and the anchors is admitted by the schema and can be printed, and throws out of the evaluation if not |
| Sealing.SealRun | src/evaluate.mjs:453-470 | for the results of a run: once anchored, sealed exactly when binding and earlier artifacts are as the schema wants them, no check of the plan has an id of more than 121 characters, and the index can be printed |
| Sealing.ShapedPlansBind | src/evaluate.mjs:202-214 | a plan its schema admits gives check ids and an index binding of the shapes these statements ask for |
| ReceiptAssembly.AssembledReceiptVerifies | src/evaluate.mjs:528-569 | every receipt assembled from any run passes the bare verifier, given that plan and reason codes have canonical forms |
| ReceiptAssembly.AssembledReceiptVerifiesWithStore | src/evaluate.mjs:528-569 | with its finalized store it passes exactly when every evidence reference names an artifact its own check put |
| Activation.FingerprintIdentifiesControl | src/activation.mjs:31-58 | equal fingerprints are fingerprints of one control: pack and validator digests, phase, effect, consumer and release included |
| Activation.SubjectIsTheResult | src/activation.mjs:60-75 | the subject of a receipt is its only result for the check |
| EvidenceText.SubjectExactly | src/activation.mjs:60-95 | a receipt shows a subject exactly when plan and receipt have one check and one result of the id, and the first validator pin and pack pin that name it are its control's |
| EvidenceText.StructuralExactly | src/activation.mjs:121-126 | the four structural reasons, by name |
| Activation.VerifyActivationPair | src/activation.mjs:131-221 | a pair is accepted exactly when both receipts verify, show one control with equal fingerprints (the expected one if given), and conform and plant as required; a refused one lists exactly the errors of what fails, and verification throws exactly when something it compares has no canonical form |
| Activation.NoStructuralReason | src/activation.mjs:121-126 | a reduction without structural reasons comes from bound, distinct results that answer every deciding check |
| Activation.UnfiredPromotes | src/activation.mjs:207-218 | if everything but the subject passed or was skipped, then with the subject passing instead the plan is PROMOTABLE |
| Activation.AcceptedPairIsCounterfactual | src/activation.mjs:121-218 | in an accepted pair the planted run is BLOCKED, and with the firing and the skips turned into PASS it is PROMOTABLE; with no blocking skip the one outcome alone decides |
| Census.KeysIdentifyEntries | src/census.mjs:87-97 | two entries share a map key exactly when they are the same tuple |
| Census.CollectStage | src/census.mjs:84-100 | a stage reads exactly when all its entries are admissible tuples; its map holds each once, and the duplicates are exactly the repeated ones |
| Census.MissingFrom | src/census.mjs:105-118 | the orphans between two stages are exactly the entries of one that the other lacks |
| CensusText.EntryReadsExactly | src/census.mjs:36-78 | a supplied entry is read exactly when it has the five members, all strings of the patterns and words of its stage |
| CensusText.GapExactly | src/census.mjs:103-117 | a gap is an entry that one of two neighbouring stages has and the other lacks |
| CensusText.ExcusesExactly | src/census.mjs:119-142 | an exclusion excuses exactly the gaps of its id in the stages it names, if it has an id, known stages and a reason |
| CensusText.OrphansInOrder | src/census.mjs:144-152 | orphans come by id, then by class name, then by the text of their key |
| CensusText.EmittedExactly | src/census.mjs:218-238 | the entry of a result is that of the check it answers, or the unresolved one |
| CensusText.DispatchedExactly | src/census.mjs:206-208 | a dispatch set is the entries of the plan's checks, or of those of one effect, in plan order |
| Census.ApplyExclusions | src/census.mjs:120-143 | suppressed are exactly the gaps some well-formed exclusion names, and errors are exactly the malformed and stale exclusions |
| Census.RunOrphanCensus | src/census.mjs:80-159 | the report is complete exactly when no stage repeats an entry, every exclusion is well formed and matches a gap, and every gap is excused; its orphans, kept exclusions and errors are exactly those, sorted |
| Census.CompleteMeansEqualStages | src/census.mjs:10-22 | without exclusions, complete means duplicate-free and all five sets equal |
| CensusTheorems.PlanEntryReads | src/census.mjs:179-187 | entries of a plan the schema admits are readable at every stage and never look unresolved |
| CensusTheorems.UnresolvedEntryReads | src/census.mjs:234-236 | the tuple of an unbindable result is readable exactly where results are, whatever the result claims as its id |
| CensusTheorems.EmittedIsPlanned | src/census.mjs:217-238 | an emitted entry is a plan entry exactly when its result is bound to the plan |
| CensusTheorems.ProblemsExactly | src/reducer.mjs:36-76 | the reducer reports no problem exactly when results are bound and distinct and every deciding check is answered |
| CensusTheorems.CensusAgreesWithReducer | src/census.mjs:201-238 | fed a plan's full dispatch set and its results, the census is complete exactly when the reducer reports no problem and every plan check has a result |
| Publication.ManifestNamesAreRequired | src/supervisor.mjs:216-223 | for names without NUL, comparing the sorted names joined by NUL is comparing the sets |
| Publication.HeldNamesAreRequired | src/supervisor.mjs:216-231 | for a manifest whose members are all files with their digests, the joined comparison is the comparison of the sets |
| Publication.ReviewVersion | src/supervisor.mjs:185-231 | a version is found sound exactly when its receipt matches the contract's artifact root and the summary's disposition and the manifest is exactly the three required members with their digests; the review throws exactly on a null summary or on a folder listed before any member that fails |
| Publication.OutputDir.Purge | src/supervisor.mjs:103-115 | exactly the version, pending and current names go, and nothing goes from a directory that cannot be listed |
| PublicationText.DoomedExactly | src/supervisor.mjs:111 | the names a purge removes: those that begin with `.v-` or `.current-`, and `current` |
| Publication.OutputDir.Abort | src/supervisor.mjs:144-148 | this run's version goes, then whatever a purge can see |
| Publication.OutputDir.Supervise | src/supervisor.mjs:126-255 | for every worker behaviour and clock: busy, published, thrown and aborted each exactly under its condition, an abort for exactly its reason, with the exact entries of the directory after each; an abort leaves nothing exactly when the directory can be listed, or was clean and the abort came before the flip |
| Publication.AbortIsCleanExactly | src/supervisor.mjs:103-148 | the directory after an abort is clean exactly when it can be listed, or was clean before and `current` was not flipped |
| PublicationText.AbortExactly | src/supervisor.mjs:103-148 | every entry of the directory after an abort, by name |
| PublicationText.FlippedExactly | src/supervisor.mjs:138-251 | every entry after a publication: `current` as a link to the version, the version, and what the first purge left |
| PublicationText.StagedExactly | src/supervisor.mjs:138-142 | every entry after an exception |
| PublicationText.RequiredExactly | src/supervisor.mjs:216-218 | the three names of a bundle, whatever slashes the artifact root ends in |
| Publication.EveryAbortIsCleanExactly | src/supervisor.mjs:144-249 | where some run can be published, all aborts leave nothing exactly when the directory can be listed |
| Publication.PublishableNeverThrows | src/supervisor.mjs:226-231 | a version whose manifest holds is not one whose review throws |
| Publication.LateDeadlineLeavesCurrent | src/supervisor.mjs:237-249 | any run that reaches the flip and is late right after it, in an empty directory that cannot be listed: aborted, with a `current` left that names the removed version |
| Publication.NullSummaryLeavesVersion | src/supervisor.mjs:178-185 | any finished run whose summary reads as null: thrown, with the version directory left as the worker left it |
| Publication.FolderLeavesVersion | src/supervisor.mjs:226-231 | any publishable run with its plan or evidence index replaced by a folder: thrown, with the version directory left |
| Publication.PublishableRunExists | src/supervisor.mjs:126-249 | for every hash, contract, artifact root and contents there are readers under which a run with those files reaches the flip |
| Worker.EvaluateInStaging | src/worker-evaluate.mjs:42-107 | stopped after any number of writes the summary file is absent; run to the end it is the last write, naming the bundle digests as they are on disk |
| PublicationText.AppliedExactly | src/worker-evaluate.mjs:42-107 | a file is what was last written under its path, or what was there before |
| PublicationText.RefusalIsWritten | src/worker-evaluate.mjs:43-71 | the summary of a refusal, literally |
| PublicationText.SuccessIsWritten | src/worker-evaluate.mjs:96-102 | the summary of a success: its five members and the digests of the bundle's three files |
| Worker.HonestWorkerIsPublished | src/worker-evaluate.mjs:69-107 | a completed evaluation in time, with a receipt for the contract, is publishable: its manifest is exactly what the supervisor requires |
| Worker.RefusingSummaryIsNotAuthoritative | src/worker-evaluate.mjs:43-71 | a summary of a refused or failed evaluation never authorizes publication |
| Worker.SuperviseWorker | src/supervisor.mjs:117-125 | worker and supervisor together: killed or crashed at any write, or killed after the last one, the run is aborted before the flip with exactly the purged directory left; exiting in time it is published; having refused it never is |

## Left out

- JavaScript specifics: object prototypes, `__proto__` keys, the insertion order of integer-like keys, NaN and the
  infinities, and the byte order mark that `TextDecoder` drops.
- `JSON.parse` on a supervisor's report is modelled by the strict parser with fatal decoding, which agrees with it on
  every report a supervisor writes; on a worker's summary it is an arbitrary partial function.
- Where a statement does not say otherwise, the schema patterns of packs, profiles, contracts and plans are left to its
  input predicates; they are modelled where a compilation can throw, for evidence indexes, and for census entries. Those
  of results and receipts are carried by the datatypes.
- Path containment rules, secret-name and secret-value detectors, and the closed set of reason codes.
- Version 2 and 3 documents: execution requirements and ceilings, execution reports in receipts, repository paths.
- Ed25519 signing and verification, key parsing, and SHA-256 itself: signature validity is an input, the hash a
  parameter.
- Git, worktrees, containers, sandbox profiles, toolchain resolution, the control-trace ledger, validator digests, and
  every validator's own work.
- Lock reclamation by a second process: a lock that is there is taken to be held by a live publisher.
- A failing `rmSync`, `mkdirSync` or `writeFileSync` in the supervisor, which leaves it by an exception.
- A worker that writes outside its own version directory.
- The message texts of errors, and the length bound that the census report puts on them.
- The order of error lists: those of the compiler, the schema evaluator and the verifiers are characterized by
  membership, not by position.
- Lifecycle attestations, pilot qualification, admission, doctor and status output, and the agent-facing projections
  other than preview decoding.
- Registry-side stages of the census (`registeredFromRegistry`, `implementedFromRegistry`): maps and filters only.
- Termination of descendants in the process-tree supervisor and the read-back of its process counts.
- EvidenceStore.EvidenceIndex.Put: the object file is written in one step; a torn write is not modelled.
- EvidenceStore.EvidenceIndex.Finalize: the index file is always written; a `writeFileSync` that fails is not modelled.
- Receipt.VerifyReceipt: an evidence index that cannot be read or is rejected gives one error, where the source passes on
  the schema's own list.
- ReceiptAssembly.AssembledReceiptVerifies: for version 1 receipts, because version 2 and 3 add execution reports.
