# A verified model of the telemetry SDK

The SDK tracks product events: `Track` sanitizes an event and appends it to a JSON-lines file that every logger of a
data directory shares, `Flush` takes the file, merges equal neighbours and posts the events in batches. This project
models the three parts where that is hard and proves what they promise.

* **Delivery.** `Merging` (run-length merging), `Buffer` (the file, byte by byte, behind its lock), `Client` (retries and
  batches), `Delivery` (a step system in which any number of loggers, in any number of processes, interleave their locked
  file operations and batch sends), `SharedFile` (the same on the bytes of the file), `Requeueing` (when putting
  unsent events back keeps their order) and `Logger.Logger.Flush`. For every run and every event key, what was tracked
  is buffered, in flight, acknowledged, trimmed or lost, and nothing is counted twice.
* **Rules and rewriting.** `Definition` compiles a declaration to a `Scheme` of textual rules, `Rules` and `Validator`
  parse and evaluate them, `Anonymizer`, `Device` and `Escaper` rewrite the data, `HeapData` clones it first. `Fallback`
  proves when and how far the compiler preserves the meaning of the declaration, `Pipeline`, `Guarantees` and
  `HashedFields` what the stages guarantee together, up to what `Track` writes.
* **Versions.** The two dotted-version comparators and the three half-open range filters built on them.

`Basics`, `GoStrings`, `GoNumbers` and `Events` hold the 64-bit integers, the string functions and the event types that
the rest stands on. Code that updates objects in place is modelled by classes and methods that modify them (`Buffer.File`,
`Buffer.Buffer`, `Client.Client`, `Logger.Logger`, `HeapData.MapObj`, `HeapData.ListObj`); a loop in the source is a loop
here, proved against a specification function or predicate, about which the lemmas then speak. Iteration over a map takes
the keys in an arbitrary order.

Three things are parameters, and every theorem holds for all of them: SHA-256 (`Device.Sha256`), the regular-expression
engine (`Rules.Engine`, only the pattern of hashed values is spelled out) and the JSON codec (`Buffer.Codec`, with the
assumptions in `Buffer.Codec.Lawful`, which concern only lines that the program wrote itself). The endpoint and the
context are arbitrary functions of the number of the post.
`hide` statements inside proofs only keep definitions away from the solver.

## Where the code does less than one might expect

* Counts are 64-bit sums. Conservation of a key is exact as long as its own tracked total fits
  (`Delivery.ExactConservation`); in general it holds up to wrap-around (`Delivery.Conservation`).
* What an append stores is found again if and only if its line and all lines before it are shorter than the scanner's
  limit (`Buffer.AppendedIsReadIffShort`); behind a longer line everything is lost at the next read.
* Events that are put back after a failed flush may stand behind later ones (`Delivery.RequeueMayReorder`). Their order
  is kept, and the next merge is the one of the original order, if nothing was appended between the take and the last
  re-append or nothing is put back; and only then, unless the last event appended meanwhile is like the one put back
  last (`Requeueing.OrderIsKeptIff`, `Requeueing.NextMergeIff`).
* The comparators subtract, so the sign is right if and only if the difference fits an int
  (`Versions.SignIsRightIffDifferenceFits`); a negative component can break it (`Versions.NegativeComponentsMisorder`).
* The compiler puts every rule in braces, and that can change what an accepted declaration means
  (`Fallback.BracesMayBreakDefinition`). `Rules.BracesKeepMeaningIff` says exactly for which expressions it does: mostly
  those that start with white space. When braces keep the meaning of a field's rules, the fallback means what is
  declared (`Fallback.CompiledChainMeansDeclared`).
* A hashed value is kept by the validator if and only if no broken rule stands in its field's chain before a rule that
  accepts the hash (`Pipeline.HashSurvives`, `Pipeline.BrokenRuleHidesHash`).
* The anonymizer looks an event up by the ID it was tracked with, the validator accepts the escaped ID, and the rules of
  a field belong to the whole group. A field that the definition anonymizes is therefore hashed if and only if the
  tracked ID is exactly that of an event that anonymizes it. Under a reserved ID, under that of an event of the group
  that does not anonymize it, or under one that merely escapes to a declared ID, a value that the field's rules allow is
  written escaped but not hashed (`HashedFields.TrackedFieldOnWire`, `HashedFields.MisspeltEventIsWrittenUnhashed`).
* The registered type of an anonymized field is the hash rule alone, while the fallback keeps the field's own rules as
  well, in front of the hash rule.

## Model

| member | source | states |
|---|---|---|
| `Merging.MergeEvents` | logger.go:276-296 | the loop, with its shortcut for short lists, computes the merge that the lemmas below speak about; its input is a value and stays as it is |
| `Merging.CanMergeMeansSameKey` | logger.go:298-311 | two events can be merged, and have the same key, exactly when giving one the time and the count of the other makes them the same event, nil and empty IDs being alike |
| `Merging.TotalMeaning` | logger.go:288-289 | what the conservation laws count: of one event its count, and for a key only if the event is the same as the key's but for time and count |
| `Merging.MergeIdempotent` | logger.go:275-296 | a merged list has no neighbours that could still be merged, and merging it again changes nothing |
| `Merging.MergeSummarizesRuns` | logger.go:275-296 | the result has one event per maximal run of equal keys, in order: the run's first event with the sum of the run's counts |
| `Merging.RunsExist` | logger.go:275-296 | every list of events has such a division into maximal runs |
| `Merging.MergeConfluent` | logger.go:254-264 | merging two parts first and then their concatenation gives the merge of the whole |
| `Merging.RequeueIsHarmless` | logger.go:254-264 | for later events that stand behind the re-queued ones: after the first k merged events were sent and the rest put back, the next merge sends what one merge of everything would have sent after those k |
| `Merging.MergeOntoConserves` | logger.go:284-293 | merging conserves the total count of every key modulo 2^64 |
| `Merging.MergeOntoExact` | logger.go:284-293 | it conserves the total of a key exactly, and keeps its counts positive, as long as that total fits an int |
| `Buffer.ScanEvents` | buffer.go:137-153 | the scan loop returns exactly the events of the file's lines up to the first over-long line, skipping blank and undecodable ones |
| `Buffer.ScanReadsLines` | buffer.go:137-153 | a line yields its event, if it is not blank and decodes, whether it ends with a line feed, with a return and a line feed, or with the file; reading stops at a line of a mebibyte |
| `Buffer.Buffer.constructor` | buffer.go:23-31 | a size limit that is not positive is replaced by the default |
| `Buffer.Buffer.Append` | buffer.go:33-67 | adds the event's line at the end of the file, or fails and leaves the bytes alone when it cannot be encoded |
| `Buffer.Buffer.ReadAndClear` | buffer.go:69-92 | returns the events of the whole file and leaves it empty; a missing file stays missing |
| `Buffer.Buffer.Trim` | buffer.go:94-135 | rewrites the file to its last maxSize events if it has more, else leaves its bytes alone |
| `Buffer.WriteAll` | buffer.go:124-133 | the trimmed events are written line by line, the ones that cannot be encoded skipped |
| `Buffer.ForeignLinesDoNotMatter` | buffer.go:145-150 | what is assumed of the codec concerns only lines that it wrote: any other line may be read as any event |
| `Buffer.AppendedIsReadIffShort` | buffer.go:57-66 | what an append stores is read back behind all others if and only if its line and the ones before it fit the scanner |
| `Buffer.FrameIsRead` | buffer.go:124-133 | events written to an empty file are read back as what is stored of each, provided their lines fit |
| `Buffer.StepRefines` | buffer.go:33-135 | one locked operation on a file holding a queue does to the queue what it should: append, take all, or keep the last k |
| `Buffer.FileRefinesQueue` | buffer.go:33-153 | over every history of operations the newline-framed bytes hold exactly the abstract queue, and every read returns what the queue returns |
| `Buffer.TrimIsIdempotent` | buffer.go:94-135 | of n events exactly the last min(n, k) are kept, in order, and trimming twice is trimming once |
| `Client.Client.Send` | client.go:50-85 | a report is posted at most 11 times, again only after a retryable status and while the context is not done; it is acknowledged, once, exactly when Send succeeds, and Send gives up only when it must |
| `Client.RetryableCodes` | client.go:22-28 | the statuses after which another try is made |
| `Client.RetriedMeaning` | client.go:61-80 | in a retry history every further post follows one of those statuses and was made with the context not done |
| `Client.Client.SendBatched` | client.go:116-130 | the batches are posted in order, each up to 11 times and after its first post only after a retryable status; the acknowledged events are exactly the first `sent`, and on failure `sent` is the 500-fold of the batches that succeeded |
| `Delivery.StepMoves` | logger.go:242-267 | every step but taking the file moves whole events between buffered, in flight, acknowledged, trimmed and lost |
| `Delivery.StepConserves` | logger.go:242-267 | every step, taking and merging included, keeps the balance of every key |
| `Delivery.Conservation` | logger.go:242-267 | over every interleaving of tracks, takes, sends, failures, re-appends, trims and crashes, for every key: tracked = buffered + in flight + acknowledged + trimmed + lost, modulo 2^64 |
| `Delivery.ExactConservation` | logger.go:242-267 | the same exactly, for each key as long as its own tracked total fits an int; then no unit of its count is acknowledged twice |
| `Delivery.EverythingIsDelivered` | logger.go:239-267 | with nothing left anywhere, and nothing trimmed or lost, every key's count is acknowledged in full |
| `Delivery.AckedWasTracked` | logger.go:239-267 | over every run, whatever the counts: an event that is acknowledged, or anywhere else, differs from some tracked event in time and count only |
| `Delivery.RunKeepsOneRequeuer` | logger.go:257-262 | over every run, a logger puts back the events of one failed flush at a time, because it holds its mutex |
| `Delivery.FlushIsARun` | logger.go:242-267 | a flush that nothing interleaves with is a run of the protocol, leading to the state with the acknowledged prefix and the re-queued suffix |
| `Delivery.TrimKeepsLast` | buffer.go:110-117 | a trim leaves exactly the last min(n, k) events of the file and touches nothing else |
| `Delivery.RequeueMayReorder` | logger.go:256-262 | a run in which a re-queued event ends up behind one that was tracked after it |
| `Requeueing.RequeuedIsSuffix` | logger.go:256-262 | over every run, a flight that loses nothing puts back exactly a suffix of what it had |
| `Requeueing.OrderIsKeptIff` | logger.go:242-267 | over every run of a flight, from its take to its last re-append, the unsent suffix stands in front of what was appended meanwhile if and only if nothing was appended meanwhile or nothing is put back (the "only if" unless the last event appended meanwhile is the very one put back last) |
| `Requeueing.NextMergeIff` | logger.go:254-264 | the next merge is that of the original order under the same condition (the "only if" unless the last event appended meanwhile has the key of the one put back last) |
| `Requeueing.UndisturbedRequeueIsHarmless` | logger.go:254-264 | when nothing was appended meanwhile, the next merge yields, whatever is tracked later, what one merge of everything would have left after the sent events |
| `SharedFile.StepOnBytes` | buffer.go:33-135 | every step of the protocol, also an append that no reader can decode, done on bytes that hold its file, leads to bytes that hold the file after the step, and what is in flight stays readable |
| `SharedFile.BytesRefineProtocol` | buffer.go:33-153 | over every interleaving of the locked operations of all loggers and processes on the bytes there is a run of the protocol, and the file ends up holding exactly its events |
| `SharedFile.BytesConserve` | buffer.go:33-153 | so the events read from the final bytes, with those in flight, acknowledged, trimmed and lost, have the tracked total of every key, modulo 2^64 |
| `Versions.CompareBuilds` | validator.go:415-431 | the loop returns the difference of the first components that differ, missing components being zero |
| `Versions.ParseMajorVersion` | config.go:218-236 | the parser's components: none for a blank version, zero for an unreadable part, two for a single part |
| `Versions.CompareMajorVersions` | config.go:242-260 | the second comparator computes the same difference on its components |
| `GoNumbers.AtoiOfDigits` | validator.go:341-342 | digits, with a sign or without, are read as the number they mean, as far as it fits an int; past that the nearest bound is reported |
| `GoNumbers.OnlyDigitsAreNumbers` | validator.go:341-345 | nothing else is read as a number |
| `Versions.BuildOfDotted` | validator.go:416-425 | the first comparator reads the components of a version as they were printed |
| `Versions.MajorOfDotted` | config.go:218-240 | so does the second, which adds a zero to a single component and takes a version for valid iff its first component is positive |
| `Versions.DiffIsLexicographic` | validator.go:412-431 | over non-negative components the sign is the lexicographic order of the components, and the reverse comparison gives the negated result |
| `Versions.DiffIsTransitive` | validator.go:412-431 | the comparison is transitive, and strict when one part is |
| `Versions.DiffZero` | validator.go:412-431 | two versions compare equal exactly when they differ in trailing zero components at most |
| `Versions.SignIsRightIffDifferenceFits` | validator.go:426-428 | the sign of the wrapped subtraction is right if and only if the difference fits an int |
| `Versions.NegativeComponentsMisorder` | validator.go:421-428 | the smallest int is ordered after 1 |
| `Versions.DiffDependsOnComponents` | config.go:242-260 | appending zero components never changes a comparison |
| `Versions.ComparatorsAgree` | config.go:242-260 | on trimmed, non-empty versions without a component out of int range the two comparators agree |
| `Versions.AcceptsIn` | validator.go:382-393 | accepts a build iff one of the ranges contains it |
| `Versions.AcceptsInVersion` | validator.go:395-410 | accepts a group version iff one of the ranges contains it; an unreadable bound accepts nothing |
| `Versions.FindMatchingVersion` | config.go:171-192 | selects the first version whose borders accept the product, else the first of all, and nothing from an empty list |
| `Versions.BuildRangeMeaning` | validator.go:379-393 | a build is in a range iff it does not come before the lower bound and comes before the upper one; an empty bound is open |
| `Versions.VersionRangeMeaning` | validator.go:395-410 | the same for group versions between printed bounds |
| `Versions.ProductRangeMeaning` | config.go:194-216 | the same for product versions, where an invalid bound is open, but not both |
| `Versions.BuildRangesSplit` | validator.go:379-393 | for a <= b <= c a build is in [a, c) iff it is in exactly one of [a, b) and [b, c) |
| `Versions.VersionRangesSplit` | validator.go:395-410 | the same for group versions |
| `Versions.ProductRangesSplit` | config.go:194-216 | the same for product versions, except that an outer range without a valid bound accepts nothing |
| `Versions.UnboundedProductRange` | config.go:204-206 | such an outer range is cut by a valid version into parts of which one accepts that version |
| `Escaper.ContainsSystemSymbols` | escaper.go:128-139 | finds out whether some character would be changed |
| `Escaper.EscapeInternal` | escaper.go:98-126 | the shortcut for clean strings and the character loop both compute the character-wise escaping |
| `Escaper.CharactersEscaped` | escaper.go:98-158 | what each of the three escapers makes of every character: printable ASCII that is neither a quote nor replaced is kept, the others get the stand-in stated |
| `Escaper.EscapeConcat` | escaper.go:108-125 | escaping distributes over concatenation |
| `Escaper.EscapeIsIdempotent` | escaper.go:98-126 | escaped text is printable ASCII without quotes and without the caller's replaced symbols, and is a fixed point |
| `Escaper.ThreeEscapersAreIdempotent` | escaper.go:31-48 | so the identifier, value and field-name escapers are idempotent |
| `Escaper.ResultTypesAreFixedPoints` | escaper.go:5-21 | every validator sentinel passes the field-name and value escapers unchanged |
| `Escaper.EscapeEventData` | escaper.go:53-62 | every key of the data is represented under its escaped form, and every written entry is the escaped value of an entry whose key escapes to it |
| `Escaper.EscapeEventDataValue` | escaper.go:77-96 | on nested data: list lengths, nulls and non-string scalars are kept, strings and keys escaped |
| `Escaper.EscapedIsUnique` | escaper.go:53-62 | without key collisions the result does not depend on the iteration order |
| `Escaper.EscapedIsIdempotent` | escaper.go:50-96 | escaping escaped data changes nothing, whatever order either pass took |
| `Device.AnonymizedIsHash` | device.go:77-95 | a non-blank value becomes text of the registered hash pattern, which the value escaper leaves alone and which is no sentinel |
| `Device.AnonymizedIsDigest` | device.go:87-95 | the digits of the result are those of the digest of salt and value, byte by byte; a blank value stays |
| `Device.DigestsAreToldApart` | device.go:87-95 | different digests give different results |
| `Device.HashMeaning` | device.go:77-78 | the pattern of hashed values, position by position |
| `Scheme.WrapBraces` | events_scheme.go:165-175 | every rule gets braces unless it starts with one |
| `Rules.CompileGlobalRules` | validator.go:205-230 | the scheme's reference tables, without the patterns that do not compile |
| `Rules.MergeRules` | validator.go:236-271 | the group's tables laid over the scheme's, also when the shortcut for a group without tables is taken |
| `Rules.SchemeReferencesResolve` | validator.go:205-230 | a reference resolves to the scheme's own range, to the trimmed values of its enum, or to its pattern if that compiles; else it is no rule |
| `Rules.LocalReferencesComeFirst` | validator.go:232-271 | a reference resolves to the group's own entry, else to the scheme's; a broken pattern of the group does not hide the scheme's |
| `Rules.MakeEnumRule` | validator.go:324-333 | an enum rule holds exactly the trimmed values; without values it is incorrect |
| `GoStrings.TrimSpaceParts` | validator.go:277 | trimming takes away nothing but white space, at the two ends |
| `GoStrings.CutDotsMeaning` | validator.go:337-340 | a range is cut at its first two dots, and is none only without two dots |
| `Rules.SingleBraceStays` | validator.go:277-281 | braces are taken off only in pairs |
| `Rules.RangeExprParses` | scheme.go:122-125 | a printed range parses to that range, for all 64-bit bounds |
| `Rules.EnumExprParses` | scheme.go:101-104 | a printed enum of any non-empty list without bars parses to exactly the trimmed values |
| `Rules.ReferencesResolve` | scheme.go:106-130 | a printed reference with a trimmed name parses to the entry of that name, or to the incorrect rule |
| `Rules.RegexpExprParses` | scheme.go:111-115 | a printed pattern parses to the pattern without its trailing white space, or to the incorrect rule if that does not compile |
| `Rules.BracesKeepMeaningIff` | events_scheme.go:165-175 | braces keep what an expression says of every text if and only if it has braces already, or is trimmed, or starts with white space and is no rule anyway, or has harmless white space at its end: always in inline enums and ranges, in patterns and references when both forms compile or resolve alike |
| `Rules.BracesMayBreakUntrimmed` | validator.go:276-281 | with leading white space the unbraced expression is accepted and the braced one is incorrect |
| `Rules.AcceptRules` | validator.go:496-511 | the loop computes the chain's verdict |
| `Rules.VerdictMeaning` | validator.go:492-511 | the verdict is final result r iff some rule gives r and none before it gives a final result; otherwise it is rejected |
| `Rules.VerdictIsFirst` | validator.go:496-511 | a chain accepts iff some rule accepts and all before it reject, finds the text incorrect iff some rule does and all before it reject, and rejects iff all do |
| `Rules.VerdictConcat` | validator.go:492-511 | a concatenation's verdict is the first chain's if that is final, else the second's |
| `Rules.DedupKeepsVerdict` | definition.go:143-147 | dropping repeated rule texts never changes what a chain says |
| `Validator.CollectAnonymizedFields` | validator.go:195-203 | the union of the fields anonymized in any event of the group |
| `Validator.CompileDataRules` | validator.go:175-187 | per field its parsed rules in order, then the hash rule if the field is anonymized; no entry for an empty chain |
| `Validator.NewValidator` | validator.go:147-192 | the validator compiled from a scheme, or an error without one |
| `Validator.CompiledGroupMeaning` | validator.go:160-189 | what the validator holds for the last group with an ID: its ranges, the parsed event ID rules, and per field its parsed rules and then the hash rule if some event anonymizes the field |
| `Validator.GroupRuleResolves` | validator.go:171-178 | a reference in a rule of a group that has no entry of its own for the name resolves to the scheme's entry |
| `Validator.OutsideBuildsIsDropped` | validator.go:369-377 | a group with one build range drops exactly the events from builds before the lower bound or not before the upper one |
| `Validator.ValidateEventData` | validator.go:450-490 | under every iteration order: every entry is represented, and every output entry is what the rules make of some entry, reserved strings passing |
| `Validator.Validate` | validator.go:354-367 | drops an event exactly when its group is known and a range filter rejects it; otherwise only the event ID and the data change |
| `Validator.ReservedNames` | validator.go:136-142 | the names that pass as they are |
| `Validator.ValidEventIDMeaning` | validator.go:433-448 | an event ID is kept iff it is reserved or its group's rules accept its escaped form, and becomes the sentinel stated otherwise |
| `Validator.CheckedValueMeaning` | validator.go:468-487 | a value is kept iff it is a reserved string or the rules accept its escaped text, and becomes the sentinel stated otherwise |
| `Validator.ValidDataMeaning` | validator.go:450-490 | without a declared field named like the sentinel: exactly the declared fields stay, with what their rules make of them, and all others become one pair of sentinels |
| `Validator.IntUnderRange` | validator.go:112-124 | an int is kept under a range exactly when it lies in it, bounds included |
| `Validator.IntUnderEnum` | validator.go:86-97 | an int is kept under an enum of one int exactly when it is that int |
| `Validator.BoolUnderEnum` | validator.go:515-530 | a bool is kept under an enum of one of the two words exactly when it is what the word says |
| `Validator.OtherUnderEnum` | validator.go:515-530 | any other scalar is kept under an enum of one text exactly when it is printed as that text, null being printed as nothing |
| `Validator.InRanges` | validator.go:369-377 | both filters must accept, an empty filter accepts everything |
| `Validator.ValidateIsIdempotent` | validator.go:354-367 | a kept event that is validated again is kept unchanged |
| `Validator.ValidDataIsFixed` | validator.go:450-490 | validating validated data changes nothing, for every iteration order of both passes |
| `Validator.ValidDataIsUnique` | validator.go:450-490 | the result does not depend on the iteration order when no declared field is named like the undefined-rule sentinel |
| `Definition.Validate` | definition.go:42-93 | succeeds if and only if the definition is well-formed: unique, well-formed names, and no path a proper segment-wise prefix of another in its event |
| `Definition.WellFormedMeaning` | definition.go:42-93 | what a well-formed definition has, clause by clause, for each group, event and field and for two different ones |
| `Definition.EnclosesMeansDotted` | definition.go:82-88 | a path encloses another iff the other begins with it and a dot |
| `Definition.ValidateFields` | definition.go:67-89 | the same for the fields of one event, for every order in which the paths are visited |
| `Definition.PrefixLookup` | definition.go:82-88 | looking up the shorter beginnings of a path finds exactly the declared paths that enclose it |
| `Definition.BuildEventsScheme` | definition.go:96-123 | the registration metadata exists iff the definition is well-formed, and holds every group, event and field in order, and the recorder with its hashed device ID |
| `Definition.RegistrationMeaning` | definition.go:101-119 | the metadata says of a group and a field what is declared, with the default type where none is, the rules in braces, and the hash rule alone for an anonymized field |
| `Definition.BuildValidationScheme` | definition.go:126-159 | the fallback exists iff the definition is well-formed and all fields are flat; per group it has one version, one rule per event ID and per path each declared rule once, in braces; its enum lists are fresh, so changing them never changes the declaration |
| `Definition.FlatMeaning` | definition.go:140-142 | flat fields are those that are neither arrays nor nested |
| `Definition.CloneEnums` | definition.go:165-168 | the enum lists are fresh copies with the same values |
| `Fallback.DroppedIffOtherVersion` | definition.go:132 | an event of a declared group is dropped iff its version is not the declared one |
| `Fallback.VersionRangeIsOneVersion` | definition.go:132 | the range from version to version + 1 holds exactly that version; the bound cannot overflow |
| `Fallback.RegisteredVersionIsAccepted` | definition.go:102-132 | the version that is registered is exactly the one that the fallback accepts |
| `Fallback.UndeclaredGroupIsKept` | validator.go:450-454 | an event of an undeclared group is kept, with the undefined-rule pair as its data |
| `Fallback.EventIDKeptIffDeclared` | definition.go:136-137 | an event ID is kept iff it is reserved or its escaped form is a trimmed declared ID; otherwise it becomes a sentinel |
| `Fallback.CompiledChainMeansBraced` | definition.go:139-155 | a field has a compiled chain iff some event declares it, and the chain says of every text what the union of the declared rules in braces, in order and with repetitions, says |
| `Fallback.CompiledChainMeansDeclared` | definition.go:139-155 | the chain says of every text what the rules as declared say, if braces keep the meaning of each; for a field with one rule and no hash, exactly if |
| `Fallback.BracesMayBreakDefinition` | definition.go:143-147 | a well-formed definition whose rule accepts a text that its fallback replaces by the incorrect-rule sentinel |
| `Fallback.ValueKeptIffAccepted` | validator.go:468-487 | a value of a declared field is kept iff it is a reserved string or a rule of the declared chain (or the hash rule) accepts its escaped text before an incorrect one, and is otherwise replaced by the exact sentinel: for the rules in braces always, for the rules as declared if braces keep their meaning |
| `Fallback.DeclaredRulesMeaning` | definition.go:139-147 | the declared chain of a path holds exactly the rule texts, as declared, of the fields with that path in any event |
| `Fallback.SharedEntriesResolve` | definition.go:161-176 | a reference among a field's rules resolves to the definition's shared entry of that name, and does so in braces as well |
| `Fallback.SameGroupsAndEvents` | definition.go:96-159 | both outputs have the same groups and types, and the same events in the same order |
| `Fallback.SamePaths` | definition.go:108-147 | a group of the fallback has rules for exactly the field paths that the metadata registers in some event of the group |
| `Fallback.RegisteredRulesAreInFallback` | definition.go:108-147 | every registered field has all of its registered rules in the fallback, unless it is anonymized |
| `Fallback.RegisteredAnonymizedIffListed` | definition.go:109-154 | a field is registered as anonymized iff the fallback lists it for that same event |
| `HeapData.CloneEventData` | logger.go:203-209 | the copy is a fresh tree with the same content, nothing shared in it, even when the original shares maps or lists; nothing that existed changes |
| `HeapData.CloneEventDataValue` | logger.go:211-224 | the same for a value of any shape |
| `Anonymizer.NewAnonymizer` | anonymizer.go:15-37 | the table of fields per group and event, the last declaration of an event counting |
| `Anonymizer.LastDeclarationCounts` | anonymizer.go:23-35 | the fields of an event are those of its last non-empty declaration in the scheme |
| `Anonymizer.UndeclaredHasNone` | anonymizer.go:23-35 | an event that is not declared with fields, or without ID, has none |
| `Anonymizer.AnonymizeValue` | anonymizer.go:53-79 | overwriting a tree in place yields exactly the path-based specification, in the same objects |
| `Anonymizer.AnonymizeEvent` | anonymizer.go:40-51 | the same for an event's data with the fields of its group and ID; the shortcuts change nothing |
| `Anonymizer.EachLeafIsHashedOnce` | anonymizer.go:53-79 | along every path: a leaf whose dotted path is declared is hashed once, every other leaf is kept, and no leaf appears or disappears |
| `Anonymizer.DottedMeaning` | anonymizer.go:60-64 | a leaf's dotted path is the keys on the way to it with dots between |
| `Pipeline.CheckedThenEscaped` | validator.go:468-487 | what validator and escaper leave of a value is reserved, or the very text a rule accepted, or the unchanged scalar or escaped container whose text was accepted |
| `Pipeline.DataOnWire` | logger.go:185-197 | every written entry comes from a declared key whose rules allow the value, or is the undefined-rule pair |
| `Pipeline.EventIDOnWire` | validator.go:433-448 | a written event ID is reserved or the very text that a rule of the group accepted |
| `Pipeline.FallbackHashesDeclaredFields` | anonymizer.go:23-46 | whatever ID an event of a declared group is tracked with, the anonymizer built from a fallback hashes exactly the fields that the definition anonymizes in the event with that very ID, and none if there is no such event |
| `Pipeline.HashSurvives` | validator.go:159-183 | for every event ID: a non-blank scalar in a field that some event anonymizes reaches the validator as its hash iff the event with that very ID is declared and anonymizes the field, else as it is; the field's chain decides about either; a hash is replaced, by the incorrect-rule sentinel, iff a broken rule stands in the chain before any rule that accepts it; the escaper never changes it |
| `Pipeline.BrokenRuleHidesHash` | validator.go:175-187 | a well-formed definition whose fallback replaces every hash of an anonymized field |
| `Guarantees.TrackedOnWire` | logger.go:151-200 | what Track writes, with data or without: every entry and the event ID are allowed by the group's rules or reserved; for an unknown group only sentinels |
| `Guarantees.TrackedEventFields` | logger.go:162-197 | field by field what else Track writes: the identifiers of logger and caller escaped, the device ID hashed, one count, everything else as given; and that it writes exactly when the group is unknown or its ranges accept the build and version |
| `Guarantees.TrackedShowsNoSecret` | logger.go:180-197 | relative to the fields that the anonymizer lists for the event ID as it was tracked: every scalar found anywhere in what Track writes is what a leaf of the caller's data becomes, along a way that escapes to it: its hash if its dotted path is one of those fields and it is not blank, else its escaped value; or it is a sentinel for a whole entry. This also holds when keys escape alike |
| `HashedFields.TrackedFieldOnWire` | logger.go:151-200 | end to end, for a logger with the validator and the anonymizer of a definition's fallback, a field that some event anonymizes and every event ID: the value is hashed iff the event with that very ID is declared and anonymizes the field; otherwise the chain decides about the value itself, and what it keeps is written escaped but not hashed; the event ID is accepted, and written, by its escaped form |
| `HashedFields.MisspeltEventIsWrittenUnhashed` | anonymizer.go:44 | tracked under an ID that merely escapes to the declared one, an allowed value of an anonymized field is written under the declared ID and not hashed |
| `Logger.EscapeIDs` | escaper.go:64-75 | keys and values of the IDs are escaped, of keys that escape alike one wins |
| `Logger.IDsAreEscapedAsData` | escaper.go:64-75 | IDs are escaped as a data map of strings is |
| `Logger.EscapeLogEvent` | logger.go:226-237 | identifiers, IDs, event ID and data are escaped, each by its escaper, and nothing else changes |
| `Logger.Logger.constructor` | logger.go:78-132 | a new logger trims the file and changes nothing else |
| `Logger.Logger.PrepareData` | logger.go:180-183 | the data handed on is the hashed content of the caller's data, read from a clone |
| `Logger.Logger.Track` | logger.go:151-200 | drops for exactly the reason given and otherwise appends the hashed, validated and escaped event; the caller's maps and lists keep their content and sharing |
| `Logger.Logger.Flush` | logger.go:242-267 | acknowledged prefix and re-appended suffix are together exactly the merged events, split at a multiple of 500; a reader finds what is stored of the suffix if its lines fit, and the suffix itself if the file was written by the program |
| `Logger.Logger.PutBack` | logger.go:257-262 | the unsent events are appended in order, one that cannot be encoded skipped |
| `Merging.MergedComeFrom` | logger.go:275-296 | every merged event is one of the events with another count |
| `Logger.RequeuedIsRead` | logger.go:257-262 | what is put back of events that were read from the program's own lines is held by the file again, provided it fits the scanner |
| `Logger.FlushRefinesProtocol` | logger.go:242-267 | a flush of the class is a run of the delivery protocol between the states that its file held before and holds after |

## Left out

- HTTP, timers, URL building and contexts: a post is answered by an arbitrary function (success, a status, or no answer), and the context may be done before any retry.
- Operating-system errors, partial writes and the lock itself: each locked buffer operation is one atomic step; a crash or a failed re-append appears in `Delivery` only as events moved to `lost`.
- The mutex between Track and Flush inside one process: it is a guard of the steps in `Delivery`; `Logger.Logger` is proved for calls that nothing interrupts.
- JSON: encoding and decoding are parameters with stated assumptions.
- Delivery.Conservation: counts the events that a reader of the file finds; an event whose line is over the scanner's limit is outside it and is dealt with by `Buffer.AppendedIsReadIffShort`.
- Merging.RequeueIsHarmless: for later events that stand behind the re-queued ones; `Requeueing.OrderIsKeptIff` says when they do.
- Requeueing.OrderIsKeptIff: for flights during which nobody else takes or trims the file, because a file that was emptied meanwhile holds neither list in full.
- HashedFields.TrackedFieldOnWire: where the written value stands is stated for a field under whose escaped name no other field of the data is written; with such a collision either may win.
- Fallback.CompiledChainMeansDeclared: the condition on braces is exact for a field with one rule; in a longer chain another rule may hide a broken one.
- Floating-point rendering and the formatted fallback for nested values: an unlisted scalar carries its text, a nested value's text is a parameter.
- SHA-256 and the regexp engine: parameters; of patterns only the one of hashed values is spelled out.
- Invalid UTF-8: strings are sequences of characters, so the replacement character of a broken byte is not modelled.
- Nil maps and lists nested inside data: they are treated like empty ones; at the top level nil and empty are told apart.
- Data with reference cycles: the program would not terminate on it, so the heap model is acyclic, with sharing.
- Validator and escaper on heap objects: they only read the event's data and build new maps, so they work on its content, which `Logger.ReadData` reads off the heap.
- Error texts and the drop callback: a result says whether and, for Track, why an event was dropped.
- Definition.CloneEnums: the patterns and ranges of the shared rules are values; only the enum lists could be shared.
- Device IDs, buckets, UUIDs, configuration download and caching, metadata, the writers of the two JSON schemes, and the deprecated builder of the events scheme with `extractEventIDs`.
