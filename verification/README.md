# LorePia import and generation core: verification

A Dafny 4.11 model of the parts of LorePia where untrusted input meets shared state, with proofs over
every input, run or interleaving. `dafny verify dfyconfig.toml` checks the project.

## What is modelled

**The CHARX inspector.** `CentralDirectory` finds the ZIP end-of-central-directory record of section
4.3.16 of PKWARE APPNOTE.TXT. `ArchivePaths` is the collision registry. `EntryDecoding` is the chunk
loop. `ArchiveModel` says what inspecting an archive means, `ArchiveInspector` holds the mutable state
and the methods proved against it, and `ArchiveTheorems` and `ArchiveReports` prove what holds of whole
inspections: acceptance as one declarative condition, conservation of bytes, exact rollback of the
staging directory, alignment of the reports, independence from chunking and from entry order.
`ArchiveExact` spells acceptance and report out over the archive itself. `ImportPreparation` composes
inspection and staging, and `ImportExamples` holds concrete packages.

**The character card.** `CardFields` reads a version 3 card and conserves its data keys.

**The prompt planner.** `PromptPlanner` refines a greedy newest-first loop to the longest admissible
suffix, proves the validator against a declarative request, and shows that plans always validate.

**The generation stream.** `CredentialScan` is the Knuth-Morris-Pratt guard that withholds a possible
credential, correct for every fragmentation; `GenerationStream` runs one guard per public channel,
`GenerationAcceptance` says which event sequences succeed, and `GenerationTranscript`, event by event, what a
reader of any run, failed or not, has seen.

**The native client.** `CoreGate` is the `Invoke`/`Dispose` protocol over a re-entrant lock for any number
of threads; operations may nest, call back, throw and dispose, and every call is proved to do, step by
step, what its operation says. `BodyShape` and `CatalogDiff` are the structural validators.

## How outside code enters

Path normalisation, extension extraction, SHA-256, JSON decoding, the profile encoder and the fixed
prompt texts are function-valued parameters, so every theorem holds whatever they compute. Where a sane
path normaliser matters (a card file must not carry an asset extension) the hypothesis is stated. The
staging directory is a map from names to bytes; disk faults on create, write and sync are inputs, and so
are the outcomes of hashing and measuring the source; removals succeed. Machine integers are unbounded
numbers with the 16, 32 and 64-bit bounds written out; `usize` is 64 bits wide.

## Where a promise fails, and exactly when

- A failed staging run is not always traceless: an entry that cannot be opened returns before the cleanup,
  and a refused entry removes whatever file stands under its partial name. `RollbackIsExact` gives the
  condition, `UnreadableEntryLeaks` and `ForeignFileIsLost` concrete cases.
- A failed import preparation is not always traceless either: when the source cannot be hashed or measured
  again after staging, the function returns before its cleanup loops. `RollbackOfPreparation` gives the
  condition, `UnreadableRecheckFails` every leaking preparation and `UnreadableRecheckLeaks` a concrete one.
- The gate alone does not keep a re-entrant operation from using the core after its own `Dispose`.
  `GateIsSafeIffOperationsAreQuiet` gives the condition; the client's operations meet it.
- The byte limits of the planner and of card texts are implied by their character limits; the byte limit of
  optional card keys is not (`KeyByteLimitDecides`).
- An added catalogue entry may carry a previous side, and a removed one a next side, if that side's version
  is zero: the client's check lets it through, and `AcceptedSpelledOut` says so.

## Model

| member | source | states |
|---|---|---|
| CentralDirectory.ScanWindows | crates/content/src/archive.rs:202-214 | the reversed window scan returns the last matching record below its start, and nothing only if there is none |
| CentralDirectory.FindEndOfCentralDirectory | crates/content/src/archive.rs:198-215 | the last record of the tail whose comment reaches its end, or nothing iff the tail has none |
| CentralDirectory.RecordsLieInTail | crates/content/src/archive.rs:168-177 | no record of the whole file can start before the tail that is read |
| CentralDirectory.TailSearchIsWholeFileSearch | crates/content/src/archive.rs:166-180 | searching only the tail finds the last record of the whole file, and nothing iff the whole file has none |
| CentralDirectory.CountComesFromLastRecord | crates/content/src/archive.rs:166-196 | the count, the multi-disk refusal and the ZIP64 refusal are those of the last record of the whole file; an accepted count is below 65535 |
| CentralDirectory.WrittenCountIsRead | crates/content/src/archive.rs:166-219 | round trip: a body followed by a written record declares the written count unless a later record is spelled inside it; without a comment, always |
| CentralDirectory.DeclaredCountSpelledOut | crates/content/src/archive.rs:180-196 | the declared count is n iff the last record of the file holds, byte by byte, two zero disk numbers and twice n, below 65535 |
| ArchivePaths.ParentOf | crates/content/src/archive.rs:525 | the part before the last separator is the nearest of all ancestors, and absent iff there is no ancestor |
| ArchivePaths.Register | crates/content/src/archive.rs:512-548 | the ancestor walk and the descendant scan accept exactly the entries compatible with all registered ones, and the registry grows by that entry alone |
| ArchivePaths.AcceptedIffPairwiseCompatible | crates/content/src/archive.rs:512-548 | a whole sequence is accepted iff every pair is compatible: keys differ and no file key plus a separator starts another key |
| ArchivePaths.PairwiseIsOrderless | crates/content/src/archive.rs:512-548 | pairwise compatibility depends on the bag of entries only |
| ArchivePaths.RegistrationIgnoresOrder | crates/content/src/archive.rs:512-548 | every reordering is accepted or refused alike and builds the same registry |
| ArchivePaths.WithParentsIsTree | crates/content/src/archive.rs:512-548 | compatible entries together with their implied parent directories form a file tree |
| ArchivePaths.AcceptedIffRealisable | crates/content/src/archive.rs:512-548 | a sequence is accepted iff its keys are distinct and one file tree holds all its entries |
| EntryDecoding.CheckedSize | crates/content/src/archive.rs:465-492 | the checked 64-bit addition and the limit together are the exact comparison with the limit |
| EntryDecoding.CollectEntryBytes | crates/content/src/archive.rs:494-510 | the metadata buffer grows by the chunk or is refused above 4 MiB; the header becomes the first 16 bytes of header and chunk |
| EntryDecoding.TakeChunk | crates/content/src/archive.rs:425-447 | one chunk is refused iff it breaks the entry, total or metadata limit over exact arithmetic; otherwise sizes, metadata and header grow by it |
| EntryDecoding.DecodeEntry | crates/content/src/archive.rs:386-463 | the chunk loop succeeds iff the reader does not fault, delivers exactly the announced size within every limit and the disk accepts it; metadata, header, size, total and stored bytes are those of the whole content; however it ends, what was decoded and written stays within the limits |
| EntryDecoding.SplitContent | crates/content/src/archive.rs:425-441 | any cutting of the same bytes into non-empty chunks delivers those bytes |
| EntryDecoding.ChunkingIsInvisible | crates/content/src/archive.rs:386-510 | two cuttings of the same bytes both decode or both fail, with the same content |
| AssetSignatures.HeaderDecidesSignature | crates/content/src/archive.rs:503-508 | the signature verdict on the first 16 bytes is the verdict on the whole asset |
| PartialFiles.DecimalInjective | crates/content/src/archive.rs:117-120 | different indices are written differently |
| PartialFiles.PartialNameInjective | crates/content/src/archive.rs:116-121 | different entries of one inspection get different partial file names |
| ArchiveModel.Refusal | crates/content/src/archive.rs:280-367 | the first reason to refuse an entry in the order of the checks; absent iff the entry is admitted under exact arithmetic |
| ArchiveInspector.RatioTestIsExact | crates/content/src/archive.rs:357-365 | the saturated comparison refuses exactly when the size exceeds compressed size times ratio over unbounded integers |
| ArchiveInspector.InspectionState.constructor | crates/content/src/archive.rs:110 | the default state is empty |
| ArchiveInspector.InspectionState.ValidateTypeAndSize | crates/content/src/archive.rs:320-367 | passes iff the type and exact size conditions hold, with the declared total grown by the header size; otherwise the first reason in order |
| ArchiveInspector.InspectionState.PrepareEntry | crates/content/src/archive.rs:280-318 | returns the first refusal, or the plan with the path registered and the declared size added |
| ArchiveInspector.InspectionState.ReadEntry | crates/content/src/archive.rs:369-463 | succeeds iff the entry decodes and the disk allows; stores exactly the decoded bytes; on failure the file under the partial name is gone |
| ArchiveInspector.InspectionState.RecordAsset | crates/content/src/archive.rs:240-266 | counts the asset, judges its signature by its whole content and records warning, block reason or preview accordingly |
| ArchiveInspector.InspectionState.RecordContent | crates/content/src/archive.rs:238-266 | the metadata or asset branch books everything but the staged file and says whether the signature is in order |
| ArchiveInspector.InspectionState.RecordEntry | crates/content/src/archive.rs:238-277 | the bookkeeping of one entry, refused only by an overflowing asset counter |
| ArchiveInspector.InspectionState.InspectEntry | crates/content/src/archive.rs:221-278 | one entry is accepted iff it is admitted and reads; the new state and directory are those of the model; a refused entry leaves the staged list alone |
| ArchiveInspector.CleanupStagedAssets | crates/content/src/archive.rs:612-616 | removes exactly the files of the staged assets |
| ArchiveInspector.VisitEntry | crates/content/src/archive.rs:112-132 | one turn of the loop: the state of the longer prefix, or the directory of a failed run |
| ArchiveInspector.Conclude | crates/content/src/archive.rs:134-163 | succeeds iff the card is present and valid; otherwise every staged file is removed |
| ArchiveInspector.InspectEntries | crates/content/src/archive.rs:110-163 | the loop over all entries succeeds iff every entry passes and the card is valid; a failure leaves the directory the model describes |
| ArchiveInspector.InspectArchive | crates/content/src/archive.rs:89-164 | an archive that does not open, or holds more entries than allowed, changes nothing; otherwise success, report and directory are those of the model; the asset-counter overflow is unreachable |
| ArchiveModel.TotalsAgree | crates/content/src/archive.rs:342-355 | before every entry the decoded total equals the declared total and lies within the limit |
| ArchiveModel.FilesAreFoundOrStaged | crates/content/src/archive.rs:369-463 | at every moment the directory is what was found plus the staged files under fresh names |
| ArchiveModel.CleanupAfterRefusal | crates/content/src/archive.rs:122-132 | cleaning up after a refusal leaves what was found, less the refused entry's own file |
| ArchiveTheorems.AcceptanceIsDeclarative | crates/content/src/archive.rs:112-132 | all entries pass iff each is sound alone, all paths are pairwise compatible and the header sizes sum to at most the limit |
| ArchiveTheorems.BytesAreConserved | crates/content/src/archive.rs:342-355 | on success both totals equal the sum of header sizes and the sum of decoded sizes |
| ArchiveTheorems.DecodeLimitsAreUnreachable | crates/content/src/archive.rs:425-447 | an admitted entry that decodes to its announced size never meets a decode-time limit |
| ArchiveTheorems.ExpansionIsBounded | crates/content/src/archive.rs:357-365 | total decoded bytes never exceed the ratio times total compressed bytes |
| ArchiveTheorems.RollbackIsExact | crates/content/src/archive.rs:112-146 | a failed run leaves the directory unchanged iff the stopping entry could be opened (or no asset stands before it) and no foreign file stood under its partial name |
| ArchiveTheorems.FilesChangeIffStaged | crates/content/src/archive.rs:409-461 | entries that pass change the directory iff staging is on and one of them is an asset |
| ArchiveTheorems.FailureLeavesNothing | crates/content/src/archive.rs:112-146 | if every index opens and every partial name is free, failure leaves no trace |
| ArchiveTheorems.UnreadableEntryLeaks | crates/content/src/archive.rs:113-115 | a concrete archive whose second entry cannot be opened leaves the first staged file behind |
| ArchiveTheorems.ForeignFileIsLost | crates/content/src/archive.rs:378-382 | a concrete run that deletes a file it did not write |
| ArchiveTheorems.StagedFilesAreFaithful | crates/content/src/archive.rs:409-461 | after any number of entries each staged record is that of its entry and its file holds that entry's bytes |
| ArchiveTheorems.StagingIsExact | crates/content/src/archive.rs:409-461 | success adds exactly one file per staged asset, at distinct fresh names, with matching size and digest |
| ArchiveReports.AcceptedNamesDiffer | crates/content/src/archive.rs:288-296 | accepted entries have distinct keys and therefore distinct names |
| ArchiveReports.ReportedNamesAreTheBadOnes | crates/content/src/archive.rs:248-259 | the reported names are those of the counted assets with a wrong signature |
| ArchiveReports.MismatchReportsAreAligned | crates/content/src/archive.rs:147-153 | after separate sorting and dedup the i-th warning and the i-th block reason name the same asset, none twice |
| ArchiveReports.RepresentativeIsLowest | crates/content/src/archive.rs:260-266 | the preview is the genuine counted image with the lowest index, absent iff there is none |
| ArchiveReports.StagingOnlyAddsFiles | crates/content/src/archive.rs:61-81 | staging changes nothing in the state but the staged list |
| ArchiveReports.InspectionAndStagingAgree | crates/content/src/archive.rs:61-81 | barring disk faults inspecting and staging succeed or fail together with equal reports apart from staged assets |
| ArchiveReports.StagedCount | crates/content/src/lib.rs:182-191 | staged and counted assets differ by exactly the card files that carry an asset extension |
| ArchiveReports.MetadataIsTheCard | crates/content/src/archive.rs:238-239 | the metadata is the content of the only card entry, wherever it stands |
| ArchiveReports.AcceptanceIgnoresOrder | crates/content/src/archive.rs:112-132 | shuffling the entries, inspected or staged on a quiet disk, does not change whether all pass |
| ArchiveReports.ReportIgnoresEntryOrder | crates/content/src/archive.rs:89-164 | shuffling the entries, inspected or staged, changes neither verdict nor report except the representative image; the staged records are the same bag, file names aside |
| ArchiveExact.AcceptanceSpelledOut | crates/content/src/archive.rs:280-367 | all entries pass iff every header is admissible field by field in figures, every entry decodes to its announced size, assets can be stored, no two names collide and the announced sizes sum to at most the limit |
| ArchiveExact.RefusalIsTruthful | crates/content/src/archive.rs:280-367 | a refusal names a fault the header really has, and is absent only if it has none |
| ArchiveExact.ReportedFiguresAreExact | crates/content/src/archive.rs:154-163 | of a successful report: the total is the sum of the decoded lengths, the asset count the number of counted slots, the image that of the first genuine counted image slot and absent iff there is none |
| ArchiveExact.ReportedCardIsExact | crates/content/src/archive.rs:134-146 | the reported card is read from the content of the only card entry |
| ArchiveExact.ReportedAssetsAreExact | crates/content/src/archive.rs:267-276 | the reported staged assets are those of the asset slots, one for one and in order, every field of every record exact |
| ImportPreparation.BlockedIffNotAllowed | crates/content/src/lib.rs:166-167 | an inspection is without block reasons iff no counted asset carries a wrong signature |
| ImportPreparation.PrepareImport | crates/content/src/lib.rs:161-200 | succeeds iff the source is readable and its inspection succeeds and, unless blocked, staging succeeds, the second fingerprint equals the first and the counts agree; the directory afterwards is exactly that of the model, on every exit |
| ImportPreparation.StageAllowed | crates/content/src/lib.rs:167-192 | the staging half: every exit after staging, those that clean up and those that do not |
| ImportPreparation.RollbackOfPreparation | crates/content/src/lib.rs:168-192 | with open indices and free names a failed preparation leaves the directory unchanged iff staging did not complete, or the source could be read again, or it holds no asset |
| ImportPreparation.UnreadableRecheckFails | crates/content/src/lib.rs:170-171 | every preparation that stages an asset fails and leaves it behind when the second hash or size cannot be read |
| ImportPreparation.PreparedFilesAreExact | crates/content/src/lib.rs:166-200 | a preparation that succeeds adds exactly one matching file per counted asset under distinct fresh names, and nothing if it is blocked |
| ImportPreparation.AllowedMeansGenuine | crates/content/src/lib.rs:166-169 | on an unchanged source every asset of an allowed preparation is genuine |
| ImportPreparation.OnlyInspectionRefuses | crates/content/src/lib.rs:161-192 | with an unchanged readable source, a quiet disk and a sane normaliser only the inspection itself can refuse |
| ImportPreparation.PreparesIff | crates/content/src/lib.rs:161-200 | a preparation succeeds iff the source is readable and its inspection succeeds and, without a wrong signature, staging succeeds, digest and size are those of the inspection and the staged assets are as many as were counted |
| ImportPreparation.StagedSourceIsUnchanged | crates/content/src/lib.rs:170-172 | whatever is staged comes from a source whose digest and size were those of the inspection |
| ImportPreparation.ChangedSourceIsRefused | crates/content/src/lib.rs:172-181 | a readable source with another digest or size is refused after staging and nothing stays behind |
| ImportPreparation.MiscountIsRefused | crates/content/src/lib.rs:182-191 | so is a staging whose number of assets differs from the inspected one |
| ImportExamples.UnreadableRecheckLeaks | crates/content/src/lib.rs:170-171 | a concrete genuine package whose staged image stays behind |
| ImportExamples.SwappedSourceIsRefused | crates/content/src/lib.rs:172-181 | a concrete source replaced by another genuine package of the same size and count: staged, refused by its digest, cleaned up |
| ImportExamples.PackageIsReported | crates/content/src/archive.rs:154-163 | the report of that package in figures: 10 bytes, one asset, the preview of its image |
| CardFields.CollectOptionalFields | crates/content/src/adapters.rs:87-117 | accepts iff every reported key is valid and there are at most 128; the result is the sorted, deduplicated report |
| CardFields.FieldsAreConserved | crates/content/src/adapters.rs:87-117 | the reported fields are strictly increasing and exactly the data keys minus the name and the one consumed field |
| CardFields.IterationOrderIsIrrelevant | crates/content/src/adapters.rs:87-117 | any iteration order gives the same list or a rejection |
| CardFields.ParseCardJson | crates/content/src/adapters.rs:22-85 | accepts exactly the valid cards and returns the trimmed name, the chosen description and the report |
| CardFields.CardConservesKeys | crates/content/src/adapters.rs:62-85 | every data key of a card is the name, the one text field that became the description, or reported; nothing else is reported, each key once and in increasing order |
| CardFields.DescriptionWins | crates/content/src/adapters.rs:62-77 | the description is the trimmed `description` if that is a text, else the trimmed `personality` if that is one, else empty; the name is the trimmed name |
| CardFields.CardSpelledOut | crates/content/src/adapters.rs:22-131 | the accepted cards in figures: size, shape, trimmed name and description lengths, number, length and characters of the further keys |
| CardFields.CardIgnoresMemberOrder | crates/content/src/adapters.rs:22-85 | documents whose data hold the same members in another order are accepted alike and read as the same card |
| CardFields.TextLimitsAreCharacterLimits | crates/content/src/adapters.rs:119-131 | on name and description only the character limit decides |
| CardFields.KeyByteLimitDecides | crates/content/src/adapters.rs:96-100 | on optional keys the byte limit can refuse on its own, exactly at lengths 65 to 128 |
| PromptPlanner.BuildStaticPrompt | crates/chat/src/prompt.rs:157-202 | the two fixed messages have the right roles and conversation and fit the prompt on their own |
| PromptPlanner.LongestSuffixIsSuffix | crates/chat/src/prompt.rs:96-136 | the selection is a suffix of the dialogue |
| PromptPlanner.LongerSuffixFails | crates/chat/src/prompt.rs:96-136 | every suffix longer than the selection breaks a budget, not only the next one |
| PromptPlanner.LongestSuffixIsLongest | crates/chat/src/prompt.rs:96-136 | the selection meets all four budgets and every longer suffix breaks one |
| PromptPlanner.SelectHistory | crates/chat/src/prompt.rs:92-136 | the greedy newest-first loop returns the longest admissible suffix, and the matching error iff that is empty although there is dialogue; neither addition overflows |
| PromptPlanner.PlanWithMode | crates/chat/src/prompt.rs:78-154 | the whole plan: first failing check, or fixed messages plus selection with clamped temperature |
| PromptPlanner.ValidateGenerationRequest | crates/chat/src/prompt.rs:274-314 | the running validator accepts exactly the declaratively valid requests |
| PromptPlanner.PlannedRequestIsValid | crates/chat/src/prompt.rs:87-153 | every planned request passes the validator, has its System message first and only there, carries the longest suffix and a temperature in [0, 2] |
| PromptPlanner.PlanCarriesInputs | crates/chat/src/prompt.rs:138-153 | a plan carries model, conversation and token limit unchanged, the temperature or the nearest bound of [0, 2], the policy with the instruction of the mode, the encoded trimmed profile and the selected history |
| PromptPlanner.PlanSucceedsIff | crates/chat/src/prompt.rs:78-153 | there is a plan iff model, temperature and token limit are usable, the history is short enough and of one conversation, profile and fixed messages fit, and the newest message of the dialogue fits behind them; all in figures |
| PromptPlanner.PlanFailsForFirstFault | crates/chat/src/prompt.rs:78-136 | a failed plan reports the first fault in the order of the checks; an unfit newest message is reported as too long by itself or as over the prompt limit |
| PromptPlanner.AdmissibleSpelledOut | crates/chat/src/prompt.rs:101-131 | the four budgets of a selection in figures |
| PromptPlanner.RequestSpelledOut | crates/chat/src/prompt.rs:274-314 | the requests the validator lets through, in figures |
| PromptPlanner.SystemMessagesAreInvisible | crates/chat/src/prompt.rs:96-100 | a System message anywhere does not change the selection |
| PromptPlanner.OlderMessageOnlyPrepends | crates/chat/src/prompt.rs:96-136 | an older message leaves the selection alone or is prepended to the whole dialogue; it breaks only an empty dialogue |
| PromptPlanner.PlanIgnoresSystemMessages | crates/chat/src/prompt.rs:96-136 | below the planning limit a System message changes nothing in the plan |
| PromptPlanner.PlanWithOlderMessage | crates/chat/src/prompt.rs:96-153 | below the planning limit an older message leaves the plan unchanged or follows the fixed messages |
| PromptPlanner.CharactersDecide | crates/chat/src/prompt.rs:104-131 | the byte budgets of prompt and history items follow from the character budgets |
| PromptPlanner.ProfileCharactersDecide | crates/chat/src/prompt.rs:224-243 | the byte limit on name and description together follows from the character limit |
| PromptPlanner.ModelCharactersDecide | crates/chat/src/prompt.rs:250-254 | the byte limit of the model identifier follows from its character limit |
| Text.BytesBounds | crates/chat/src/prompt.rs:8-23 | a text takes between one and four bytes per character |
| Text.ByteLimitIsRedundant | crates/chat/src/prompt.rs:8-23 | a byte limit of at least four times the character limit decides nothing |
| Text.TrimIsSlice | crates/content/src/adapters.rs:46-70 | trimming leaves the stretch of the text between its outer whitespace |
| CredentialScan.Advance | crates/chat/src/generation.rs:679-687 | the shared inner loop moves from the longest overlap of the text to that of the text with one more byte |
| CredentialScan.BuildPrefixTable | crates/chat/src/generation.rs:648-662 | every table entry is the longest proper prefix that ends the pattern so far |
| CredentialScan.ScanSuffix | crates/chat/src/generation.rs:668-692 | reports a full match iff the credential occurs, otherwise the longest credential prefix that ends the value |
| CredentialScan.FeedIsOnePush | crates/chat/src/generation.rs:155-185 | pushing fragments one by one fails, releases and withholds exactly as one push of their concatenation |
| CredentialScan.GuardedStream | crates/chat/src/generation.rs:155-190 | fails iff the input contains the credential; otherwise released and withheld bytes together are the input and nothing released contains it |
| CredentialScan.NothingOfTheCredentialEscapes | crates/chat/src/generation.rs:155-185 | when a fragment completes the credential, no byte of it had been released |
| CredentialScan.WithholdingIsMinimal | crates/chat/src/generation.rs:164-185 | one continuation makes a credential start at the first withheld byte |
| CredentialScan.CutIsScalarBoundary | crates/chat/src/generation.rs:664-691 | in UTF-8 text the longest credential prefix at its end starts at a scalar boundary and both sides are UTF-8 |
| CredentialScan.PushKeepsScalars | crates/chat/src/generation.rs:160-184 | one push on a guard that holds UTF-8 splits what it holds, and the credential, between scalars and leaves UTF-8 on both sides |
| CredentialScan.FeedKeepsScalars | crates/chat/src/generation.rs:155-185 | after any number of UTF-8 fragments what was released and what is withheld are UTF-8 |
| CredentialScan.EveryCutIsScalarBoundary | crates/chat/src/generation.rs:182-184 | at every push of a stream of UTF-8 fragments the split falls between scalars of the text held at that moment, so it cannot panic |
| CredentialScan.ReflectionStream.PushFragment | crates/chat/src/generation.rs:155-185 | one push on the mutable guard is the push of the specification; a disabled guard passes the fragment through |
| CredentialScan.ReflectionStream.Finish | crates/chat/src/generation.rs:187-189 | returns and clears what was withheld |
| GenerationStream.NoChannelLeaks | crates/chat/src/generation.rs:223-291 | at every moment of every run, failed or not, each reader has seen a prefix of what was sent on its channel that ends before the first byte of every credential in it |
| GenerationAcceptance.FilterRefusesReflection | crates/chat/src/generation.rs:155-185 | a channel's guard refuses exactly the fragment that completes the credential on the channel as a whole |
| GenerationAcceptance.RunSucceedsIff | crates/chat/src/generation.rs:223-366 | the events are all forwarded iff they number at most 8192, stay within the output and argument budgets, keep the tool life cycle with at most 128 calls, and hold the credential in no identifier, name or channel; the counters and sets are those of the events |
| GenerationAcceptance.GenerationSucceedsIff | crates/chat/src/generation.rs:223-487 | a generation succeeds iff it has at most 8192 events within the output and argument budgets, keeps the tool life cycle with at most 128 calls all completed, and holds the credential in no identifier, name or channel |
| GenerationStream.ToolStreamsAlwaysAvailable | crates/chat/src/generation.rs:343-366 | the two errors about a missing argument stream are unreachable |
| GenerationStream.GenerationConserves | crates/chat/src/generation.rs:223-398 | a successful generation delivers every byte of every channel, in order and once, without the credential |
| GenerationStream.GenerationClosesToolCalls | crates/chat/src/generation.rs:293-398 | a successful generation starts, feeds and completes each tool call once, in that order |
| GenerationAcceptance.CharsAreScalars | crates/chat/src/generation.rs:443-460 | counting the bytes that do not continue a scalar counts the scalars of a UTF-8 text |
| GenerationTranscript.LogIsExact | crates/chat/src/generation.rs:223-366 | for every run, event by event: an accepted event shows exactly the provider's identifier and name, or the bytes between the guard's old and new cut of its channel; from the first refused event on nothing is shown |
| GenerationTranscript.StartsAreFaithful | crates/chat/src/generation.rs:293-318 | in every run the calls announced are, in order, those the accepted events started, with their names, and none is closed before the end |
| GenerationTranscript.StartStandsInPlace | crates/chat/src/generation.rs:293-318 | an announced call stands right after what the events before it had shown |
| GenerationTranscript.GenerationIsExact | crates/chat/src/generation.rs:368-398 | a successful generation shows its log, then what text and reasoning had withheld, then per completed call its withheld arguments and its completion |
| GenerationTranscript.GenerationAnnouncesCalls | crates/chat/src/generation.rs:293-398 | a successful generation announces every started call under its name and closes every completed one, both in the provider's order |
| Utf8.SplitAtBoundary | crates/chat/src/generation.rs:182-184 | splitting UTF-8 at a scalar boundary gives two UTF-8 strings |
| Utf8.Concatenate | crates/chat/src/generation.rs:163-167 | appending a UTF-8 fragment to UTF-8 text gives UTF-8 text |
| CoreGate.StepKeepsInv | apps/windows/Lorepia.Native/CoreClient.cs:2105-2139 | every step of every thread keeps the lock and flag invariants |
| CoreGate.OneThreadInside | apps/windows/Lorepia.Native/CoreClient.cs:2105-2132 | in every interleaving at most one thread is inside the gate |
| CoreGate.ReleasedOnceAndAlone | apps/windows/Lorepia.Native/CoreClient.cs:2105-2114 | in every interleaving the core is released at most once and only while no other thread is inside |
| CoreGate.FinishedDisposeHasReleased | apps/windows/Lorepia.Native/CoreClient.cs:2105-2114 | in every interleaving, once a Dispose, nested or not, has left a thread's calls, the core has been released exactly once |
| CoreGate.DisposeReleases | apps/windows/Lorepia.Native/CoreClient.cs:2105-2114 | a thread that called Dispose and is idle again has seen the core released |
| CoreGate.CallCheckedAfterReleaseThrows | apps/windows/Lorepia.Native/CoreClient.cs:2116-2139 | a call, nested or not, that is still before its check when the core is released ends by throwing |
| CoreGate.CallsAfterDisposeThrow | apps/windows/Lorepia.Native/CoreClient.cs:2105-2139 | after any Dispose has returned, every call that any thread begins and finishes has thrown |
| CoreGate.EveryLogIsOrdered | apps/windows/Lorepia.Native/CoreClient.cs:2105-2139 | whatever the operations do: one release, calls admitted only before it and refused only after it |
| CoreGate.CallCompletes | apps/windows/Lorepia.Native/CoreClient.cs:2116-2132 | whenever the lock is available a call runs to its end by its own thread's steps, having done exactly what its operation says, nested calls, exceptions and disposals included, with the lock and all other threads as before |
| CoreGate.DisposeCompletes | apps/windows/Lorepia.Native/CoreClient.cs:2105-2114 | so does Dispose, and a first Dispose logs exactly one release |
| CoreGate.AdvanceKeepsFate | apps/windows/Lorepia.Native/CoreClient.cs:2116-2139 | a step of the lock owner changes whether its calls can end well exactly by using a released core |
| CoreGate.QuietRunsStayClean | apps/windows/Lorepia.Native/CoreClient.cs:2105-2139 | with quiet operations no interleaving admits a call or reaches the core after the release |
| CoreGate.DoomedOwnerOffends | apps/windows/Lorepia.Native/CoreClient.cs:2116-2139 | from every doomed state a schedule that uses the released core exists |
| CoreGate.GateIsSafeIffOperationsAreQuiet | apps/windows/Lorepia.Native/CoreClient.cs:2105-2139 | every interleaving of any number of threads is safe iff no operation can use the core after its own Dispose |
| CoreGate.DisposeThenNativeIsUnsafe | apps/windows/Lorepia.Native/CoreClient.cs:2116-2132 | a concrete re-entrant operation for which the gate alone does not suffice |
| CoreGate.ShapesAreClientOperations | apps/windows/Lorepia.Native/CoreClient.cs:1477-1490 | the plain call, the calls behind one or two binding checks and the call with a credential callback all have the client shape |
| CoreGate.DisposeFreeKeepsCore | apps/windows/Lorepia.Native/CoreClient.cs:3808-3841 | a nested call that disposes of nothing returns, or throws, with the core still alive |
| CoreGate.ClientOperationsAreQuiet | apps/windows/Lorepia.Native/CoreClient.cs:947-974 | any operation made of native calls and dispose-free nested client calls, followed by a callback that may dispose and call the client at will, is quiet |
| CoreGate.ClientIsSafe | apps/windows/Lorepia.Native/CoreClient.cs:2105-2139 | all operations of that shape together are safe on every interleaving |
| BodyShape.ValidateShape | apps/windows/Lorepia.Native/CoreClient.cs:3622-3698 | accepts iff the tree is well formed, at most 16 deep and within 256 nodes counting on from the counter; the counter then grows by exactly the node count |
| BodyShape.ValidateItems | apps/windows/Lorepia.Native/CoreClient.cs:3658-3664 | the item loop accepts iff all items pass within the remaining depth and node budget |
| BodyShape.ValidateField | apps/windows/Lorepia.Native/CoreClient.cs:3675-3692 | one turn of the field loop passes iff the longer list of fields does; the name set and the counter grow accordingly |
| BodyShape.ValidateFields | apps/windows/Lorepia.Native/CoreClient.cs:3675-3692 | the field loop accepts iff names are valid and distinct and all shapes pass within the remaining budget |
| BodyShape.AcceptedBodies | apps/windows/Lorepia.Native/CoreClient.cs:3612-3698 | the accepted bodies with every kind, limit and name rule written out in figures |
| CatalogDiff.ValidateDistinctValues | apps/windows/Lorepia.Native/CoreClient.cs:4643-4654 | accepts iff no value is blank and all are distinct |
| CatalogDiff.ValidateChange | apps/windows/Lorepia.Native/CoreClient.cs:4248-4276 | one change passes iff its identifiers, digests, sides and sections are in order and its identifier is new |
| CatalogDiff.ValidateChanges | apps/windows/Lorepia.Native/CoreClient.cs:4243-4314 | one bucket passes iff every change is valid and its identifiers are new and distinct; the shared set grows by them |
| CatalogDiff.ValidateDiff | apps/windows/Lorepia.Native/CoreClient.cs:4204-4241 | accepts exactly the valid diffs |
| CatalogDiff.AcceptanceIsInvertible | apps/windows/Lorepia.Native/CoreClient.cs:4204-4342 | a diff and its inverse are accepted together, and inverting twice is the identity |
| CatalogDiff.IdentifiersOccurOnce | apps/windows/Lorepia.Native/CoreClient.cs:4214-4240 | in an accepted diff every identifier occurs once across its three buckets |
| CatalogDiff.AcceptedSpelledOut | apps/windows/Lorepia.Native/CoreClient.cs:4204-4342 | the accepted diffs written out: an addition has only its next side, a removal only its previous one, an update both, digests of 64 hexadecimal digits, no identifier twice among its kind |
| Ordering.SortedIsUnique | crates/content/src/archive.rs:147-153 | a sorted permutation is unique, so the sorting algorithm does not matter |
| Ordering.DedupSorted | crates/content/src/adapters.rs:114-115 | dedup after sorting leaves each value once in strictly increasing order |
| Ordering.StringLeqIsDictionary | crates/content/src/adapters.rs:114 | the order of reported fields is dictionary order: a prefix first, otherwise the first differing character decides |

## Left out

- File opening, seeking, permissions and real I/O: only their outcomes enter, as inputs.
- The ZIP decoder, Unicode normalisation in `crates/content/src/path.rs`, SHA-256 and serde_json: function parameters.
- Model-sync validators, discovery, credential transactions, catalogue import plans and view models: the same hash-set loops or branch-by-branch checks, easy after the catalogue diff.
- The binding checks inside `SendMessageWithTarget` (exactly one route, exactly one preset): settled by one comparison each; only their nested calls are modelled.
- The checks of `inspect_file` on the path itself (symbolic link, empty, too large), its JSON card branch and its extension warning: branch-by-branch checks before the modelled part.
- JSON mapping, wire records and per-field presence checks of the native client: settled by reading one branch.
- Opaque reasoning state, usage summaries, provider error bounding, zeroisation and event sequence numbers of a generation.
- The generation accumulator is modelled on values, as a state machine; update in place is not captured. Re-splitting released tool arguments into bounded events is not modelled: they leave as one event.
- Error messages: refusals are modelled as reasons; which decode-time reason is reported is not specified because it depends on the chunking.
- The tables of magic numbers, media types, whitespace and control characters are taken over entry by entry; nothing independent is proved of them.
- Identifiers, timestamps and prompt wording: opaque values.
- .NET strings are modelled as Unicode scalars; unpaired surrogates are not representable.
- CatalogDiff.ValidateChanges: one method serves manifests and models; a manifest change carries its own identifier as its template.
