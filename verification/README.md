# Dream64 in Dafny

A model of the deterministic cores of Dream64, a Dream Maker compiler frontend, runtime and native client, with
proofs of what those cores are relied on for. Four parts:

- **Incremental compilation.** The binary database and its codec, paged section payloads, dependency invalidation,
  stable linker IDs, the per-file syntax cache, and the build directory that ties them together. Main result:
  whatever happened in the directory before, every build that succeeds returns what a build from scratch would
  (`IncrementalBuild.EveryBuildIsClean`).
- **Frontend algorithms.** The precedence-climbing constant evaluator against a grammar of expression trees, the
  depth-first search for cyclic constants, the include-once expansion of a project, and the sweep that splices
  declarations into expansion order.
- **Client protocol and window state.** Appearance trees, recording and playback, numbered UI events from the
  server's retained batch to the presentation and the browser owner, window-command quoting and parsing, and the
  read and write laws of the runtime window state.
- **Packing and layout.** The per-frame sprite atlas, the persistent sheet atlas, and the recursive pane layout.

`dafny verify dfyconfig.toml` checks everything.

## How the model is built

Code that computes values is modelled by functions; code that updates fields, buffers, cursors or maps in place is
modelled by classes and loops, each proved equal to a function of its inputs or old state, and the results are proved
about those functions.

What the definitions mean is stated a second time without them, in operator sets, byte layouts, character codes, first
and last places and exact conditions: `ConstantLaws`, `ConstantEdges`, `StoredLayout`, `CacheLayout`, `CacheLimits`,
`FreshInvalidation`, `BuildModes`, `UiNames`, `Selectors`, `Addresses`, `Winclones`, `PaneReadings`, `SpriteShelves`.

Whatever the code calls without defining is a parameter, and results hold for every value of it: MD5, UTF-8, the
source fingerprint, the syntax parser, the project loader, the code generator and its artifact format, binary32
arithmetic, the presentation of one appearance row, path normalisation, and what a UI command reads from the native
layout. Where a result needs more, it is a named hypothesis:

- `HashesTell` and `DigestsTell`: equal hashes of path and text of two versions of a file, or equal path, digest and
  length as the database records them, mean equal path and contents. Only the versions a line of builds has seen are compared.
- `LoadedFrom`: the loader's snapshot is a function of the files' paths and contents and the two build digests.
- `ArtifactsDecode`: an encoded artifact, if it decodes, decodes to what was encoded.
- `Kept`: results about sessions start from a window state whose keys and case-folded property names are unique; a new
  state has this and every operation keeps it.
- `Room`: a namespace does not run out of 64-bit numbers; the condition is exact.

## Where the code promises less than it seems

- `replace_paged_section` edits before it validates (crates/dm-compiler/src/persistent_database.rs:214-239); on an
  error the sections are changed, and `ReplacePagedSection` says so.
- Stable IDs clamp at the last 64-bit number; a namespace that overflows makes the next table invalid
  (`StableIds.ExhaustedNamespace`).
- A name absent for one build may return under another number, and another name may take its number over
  (`ReturningNames.ReturningNameRuns`, `ReturningNames.TakenNumberRun`); `ReturningNames.ReturningKeepsIff` and
  `ReturningNames.TwoNamesOneNumberIff` say exactly when.
- A browser update refused by a full owner queue is lost: its sequence number has already advanced, so the resent
  event is acknowledged without effect. `UiDelivery.BrowserUpdatesCompleteIff` gives the exact condition on the batches,
  and `OwnerQueueLoss.LinksOpenedIff` runs that lose an update.
- A resource refused by a full owner queue is marked for acknowledgement before the push
  (crates/dm-client/src/main.rs:1655-1668). If that acknowledgement arrives and no round queued the resource, it is lost
  for good; `ResourceDelivery.ResourcesCompleteIff` gives the exact condition, `ResourceLoss` runs on both sides of it.
- `ensure_browser_window` clones before it assigns (crates/dm-dmf/src/lib.rs:893-899), so a refused `browse` can leave
  a cloned window behind: at the first try always for an unresolved dotted name in a skin with the popup template
  (`BrowserWindows.RefusedBrowseLeavesClone`), and exactly under `LeavesClone` (`ClientSessions.RefusalLeavesTraceIff`).
  What the client shows over a whole run is `ClientSessions.PresentationIsTheEventLog`.
- A refused UI event is never acknowledged and blocks every later one on the connection
  (`ClientSessions.RefusedCommandStopsDelivery`).
- A build can fail where a clean one would not: the stored table leaves a namespace no room, or the kept runtime
  sections exceed the record limit or the file limit. `IncrementalBuild.HistoryFailsIff` is the exact condition,
  `SavedSizes.SaturatedTableFails` an input.
- An appearance with an empty type path is written with an empty column, which the client's splitting drops; it then
  refuses the row (`AppearanceText.EmptyTypePathIsRefused`).
- A macro element has one runtime key per spelling of its address (`UiWindows.BareIdTurnsAmbiguous`); exactly which
  writes change what an address means is `UiStates.ResolvesAlikeIff`.
- A repeated resource request is recorded once, so playback answers every repetition with the first reply
  (`Replay.PlaybackRepeatsSessionIff`, `Replay.SecondReplyIsForgotten`).
- In a constant, a type path followed by a slash and a name absorbs both (crates/dm-globals/src/constant.rs:262-279);
  the writing of trees parenthesises such paths.

## Model

| member | source | states |
|---|---|---|
| `DatabaseFile.DecodeInvertsEncode` | crates/dm-compiler/src/persistent_database.rs:287-401 | every database that encodes decodes to itself, through nested counted records, limits, checksum and trailing-byte check |
| `DatabaseFile.EncodeInvertsDecode` | crates/dm-compiler/src/persistent_database.rs:287-401 | every byte string that decodes is exactly the encoding of its result, so no two files decode alike |
| `DatabaseFile.StableIdTableRoundTrips` | crates/dm-compiler/src/persistent_database.rs:67-126 | a stable-ID table saves to given bytes if and only if those bytes load as that table |
| `StoredLayout.StoredBytes` | crates/dm-compiler/src/persistent_database.rs:287-328 | every saved database byte by byte: magic, version, flags, length, MD5, and the fields in order with their counts and lengths |
| `StoredLayout.StoredTable` | crates/dm-compiler/src/persistent_database.rs:67-90 | the same for the table of linker identities |
| `StoredLayout.LowestFirst` | crates/dm-compiler/src/persistent_database.rs:599-602 | numbers are eight bytes, the lowest first |
| `StoredLayout.SavesIff` | crates/dm-compiler/src/persistent_database.rs:287-328 | a database saves if and only if it is consistent, no text, list or page is over its limit and the file is not over 8 GiB |
| `StoredLayout.ValidateIff` | crates/dm-compiler/src/persistent_database.rs:477-534 | which databases the check accepts, and with which error it refuses the others |
| `DatabaseFile.EncodeDatabase` | crates/dm-compiler/src/persistent_database.rs:287-328 | the field-by-field writer, its validation, string, list, payload and file limits, produces the saved form of the layout or its error |
| `DatabaseFile.DecodeDatabase` | crates/dm-compiler/src/persistent_database.rs:331-401 | the cursor reader accepts exactly what the layout loads, with the same error category |
| `DatabaseFile.EncodeStableIdTable` | crates/dm-compiler/src/persistent_database.rs:67-90 | the stable-ID writer produces the saved form of the table layout |
| `DatabaseFile.DecodeStableIdTable` | crates/dm-compiler/src/persistent_database.rs:91-126 | the stable-ID reader accepts exactly what the table layout loads |
| `Containers.LoadInvertsSave` | crates/dm-compiler/src/persistent_database.rs:287-401 | header, length, checksum and payload written in front of any lawful payload read back as it |
| `Containers.SaveInvertsLoad` | crates/dm-compiler/src/persistent_database.rs:331-401 | whatever a container loads, saving the result gives the same bytes |
| `Containers.CorruptionIsCaught` | crates/dm-compiler/src/persistent_database.rs:331-365 | other payload bytes under an accepted header load only if their MD5 collides with the original's |
| `DatabaseModel.CheckStableIds` | crates/dm-compiler/src/persistent_database.rs:520-534 | the two growing identity sets accept a table exactly when it is not too long and names and numbers are distinct within each namespace |
| `DatabaseModel.DatabaseLawful` | crates/dm-compiler/src/persistent_database.rs:287-401 | the nested record codec of the whole database is inverse in both directions |
| `Codecs.CountedLawful` | crates/dm-compiler/src/persistent_database.rs:588-653 | a length-prefixed list of lawful records is lawful, record limit included |
| `Codecs.FromLittleEndianRoundTrip` | crates/dm-compiler/src/persistent_database.rs:599-614 | bytes read as a little-endian integer and written again are the same bytes |
| `Codecs.ReadAll` | crates/dm-compiler/src/persistent_database.rs:615-653 | the counted read loop consumes exactly the records the specification reads and stops at the same error |
| `Invalidation.InvalidatedSections` | crates/dm-compiler/src/persistent_database.rs:259-284 | terminates with exactly the sections that reach a changed input through section dependencies, in increasing order, cyclic graphs included |
| `Invalidation.InvalidationDistributes` | crates/dm-compiler/src/persistent_database.rs:259-284 | invalidation by a union of changed sets is the union of the invalidations |
| `Invalidation.ValidReadsUnchanged` | crates/dm-compiler/src/persistent_database.rs:249-284 | a section left valid has every input it transitively reads unchanged |
| `Invalidation.ReusedIsRebuilt` | crates/dm-compiler/src/persistent_database.rs:249-284 | for any deterministic build function, rebuilding a section that was not invalidated gives the very same result |
| `Paging.PersistentCompilerDatabase.Payload` | crates/dm-compiler/src/persistent_database.rs:165-199 | reassembly loop: inline payload, or pages in dependency order, refusing a missing, empty or damaged page |
| `Paging.PersistentCompilerDatabase.ReplacePagedSection` | crates/dm-compiler/src/persistent_database.rs:202-240 | edits the sections in place and validates afterwards; on success with a non-empty payload the section reads back as that payload |
| `Paging.ReplacedReadsBack` | crates/dm-compiler/src/persistent_database.rs:165-240 | after an accepted replacement the section's payload is the one given |
| `Paging.NoOldPageSurvives` | crates/dm-compiler/src/persistent_database.rs:214-239 | no page of an earlier payload is left in the page range |
| `Paging.OtherPayloadsKept` | crates/dm-compiler/src/persistent_database.rs:165-240 | sections that neither are nor list a replaced ID keep their payload |
| `Paging.ReplacedMembers` | crates/dm-compiler/src/persistent_database.rs:214-239 | the sections afterwards are exactly the kept ones, the new pages and the manifest |
| `Paging.SortPermutes` | crates/dm-compiler/src/persistent_database.rs:232-237 | sorting sections by ID neither drops nor repeats one |
| `Paging.ChunkAt` | crates/dm-compiler/src/persistent_database.rs:202-240 | page k holds the k-th 64 MiB of the payload |
| `Paging.PageDigestIs` | crates/dm-compiler/src/persistent_database.rs:439-445 | a page's digest is its MD5 and the MD5 of that |
| `StableIds.AssignStableIds` | crates/dm-compiler/src/lib.rs:880-918 | the two passes over prior entries and nodes give every node its prior ID, or the next free one of its namespace with saturation |
| `StableIds.NamespaceSpells` | crates/dm-compiler/src/lib.rs:896-900 | types, procedures and fields have a namespace each; verbs share that of procedures |
| `StableIds.AssignedValidIff` | crates/dm-compiler/src/lib.rs:880-918 | from a valid table and distinct nodes, the new table is valid if and only if every namespace has room in 64 bits |
| `StableIds.ExhaustedNamespace` | crates/dm-compiler/src/lib.rs:899-904 | concrete table in which saturation makes the new table invalid |
| `StableIds.KnownKeepsId` | crates/dm-compiler/src/lib.rs:880-918 | a name in the prior table keeps its ID in the next build |
| `StableIds.FreshIdIsNew` | crates/dm-compiler/src/lib.rs:880-918 | a new name's ID exceeds every ID of its namespace in the prior table |
| `StableIds.RunKeepsTablesValid` | crates/dm-compiler/src/lib.rs:880-918 | over any run of builds with room every table is valid |
| `StableIds.IdIsStable` | crates/dm-compiler/src/lib.rs:880-918 | a name present in every build of a run keeps its ID to the end of the run |
| `ReturningNames.ReturningKeepsIff` | crates/dm-compiler/src/lib.rs:880-918 | over any run, a name that held a number, was missing from a build and is named by the next holds that number again if and only if it is the next free one of the namespace, after the new names before it, clamped |
| `ReturningNames.LargerSurvivorForbids` | crates/dm-compiler/src/lib.rs:880-918 | below the last number, a name that returns while a larger number of its namespace survives gets another one |
| `ReturningNames.TwoNamesOneNumberIff` | crates/dm-compiler/src/lib.rs:880-918 | over any run with room, a second name of the namespace ends with the number a name held after some build if and only if it came in after that build, drew the number as the next free one and was named ever since |
| `ReturningNames.ReturningNameRuns` | crates/dm-compiler/src/lib.rs:880-918 | two runs of three builds in which the same name is missing from the second: its number changes in one and stays in the other |
| `ReturningNames.TakenNumberRun` | crates/dm-compiler/src/lib.rs:880-918 | a run of three builds after which a new name holds the number a missing one held |
| `Builds.BuildDatabase` | crates/dm-compiler/src/lib.rs:873-1004 | assembling inputs, stable IDs, pages, manifest and the carried runtime sections gives the specified database |
| `Builds.LinkedReadsBack` | crates/dm-compiler/src/lib.rs:919-1030 | the linked pages of a fresh database reassemble to the concatenated artifact segments, by either reader |
| `Builds.PreservedIff` | crates/dm-compiler/src/lib.rs:962-990 | exactly which runtime artifact of the previous database is carried over |
| `Builds.DigestIs` | crates/dm-compiler/src/lib.rs:847-857 | an input's and a frontend page's digest is the MD5 of its bytes and the MD5 of the bytes behind a one |
| `Builds.AllPagesJoin` | crates/dm-compiler/src/lib.rs:919-958 | cutting segments into pages and joining the pages gives the segments back |
| `FreshInvalidation.ChangedInputInvalidates` | crates/dm-compiler/src/lib.rs:919-1030 | in a freshly written database a changed input invalidates its own section and, once there is a page, every frontend page and the manifest |
| `FreshInvalidation.OtherInputsStay` | crates/dm-compiler/src/lib.rs:919-957 | it invalidates no other input's section |
| `FreshInvalidation.FreshLayout` | crates/dm-compiler/src/lib.rs:919-1000 | which section stands where in a fresh database, by number |
| `Lineage.FreshStaysInLine` | crates/dm-compiler/src/lib.rs:873-1004 | under those conditions the new database is again in line, whatever runtime sections it carries over |
| `Lineage.FreshValidatesIff` | crates/dm-compiler/src/lib.rs:873-1004 | on top of a prior database of the line, the new database validates if and only if inputs and nodes are distinct, nodes and sections are not too many and every namespace has room in the prior table |
| `Lineage.LinkStaysInLine` | crates/dm-compiler/src/persistent_database.rs:202-240 | linking a runtime artifact keeps a database in line |
| `Lineage.LinkHolds` | crates/dm-compiler/src/persistent_database.rs:202-240 | linking a non-empty artifact under a non-zero digest stores it |
| `Lineage.RuntimeSurvives` | crates/dm-compiler/src/lib.rs:960-1004 | the linked runtime artifact survives a frontend build on top of its database |
| `Representation.RepresentableIff` | crates/dm-compiler/src/persistent_database.rs:287-328 | exactly which databases fit the format's integer and text types |
| `Representation.FreshRepresentable` | crates/dm-compiler/src/lib.rs:873-1004 | a database built from representable parts is representable |
| `Representation.LinkedRepresentable` | crates/dm-compiler/src/persistent_database.rs:202-240 | linking keeps a database representable |
| `SyntaxCache.IncrementalIsClean` | crates/dm-compiler/src/lib.rs:1052-1202 | whenever a cache written for one version of a project is accepted for another, table and diagnostics are those of a full parse and the reuse count is true |
| `SyntaxCache.AcceptedIff` | crates/dm-compiler/src/lib.rs:1101-1202 | a cache is accepted if and only if file counts agree, it fitted the format, and each file's entry is usable |
| `SyntaxCache.UnchangedIsReused` | crates/dm-compiler/src/lib.rs:1052-1202 | an unchanged project accepts its own cache as exact and reuses every parsed file |
| `SyntaxCache.ParseProject` | crates/dm-compiler/src/lib.rs:1590-1638 | parses every source-bearing file once, in order, collecting diagnostics in order |
| `SyntaxCache.EncodeCache` | crates/dm-compiler/src/lib.rs:1052-1099 | the writer produces the cache bytes of the specification |
| `SyntaxCache.ReadCache` | crates/dm-compiler/src/lib.rs:1101-1202 | the single reading pass, deciding file by file, gives the specified outcome or rejection |
| `CacheLayout.CacheIs` | crates/dm-compiler/src/lib.rs:1052-1099 | every written cache byte by byte: magic, front-end fingerprint, count, and for each file its fingerprint and its syntax or a zero |
| `CacheLayout.HeaderIs` | crates/dm-compiler/src/lib.rs:814-815 | the header's 39 bytes |
| `CacheLayout.SyntaxWritten` | crates/dm-compiler/src/lib.rs:1066-1097 | the bytes of a parsed file: its definitions with their fields in order, tags and lengths written out |
| `CacheLayout.KindWritten` | crates/dm-compiler/src/lib.rs:1207-1227 | one tag for every kind of token and what follows it |
| `CacheLayout.CleanParseIs` | crates/dm-compiler/src/lib.rs:1590-1638 | which files are parsed and what a parse leaves |
| `CacheLayout.FingerprintIs` | crates/dm-compiler/src/lib.rs:1040-1050 | a fingerprint covers path and text |
| `CacheLimits.CarriedIff` | crates/dm-compiler/src/lib.rs:1101-1203 | a parsed file can be carried if and only if its spans run forward, its paths are not empty, its punctuation is characters and its parents come first |
| `SyntaxRecords.FileLawful` | crates/dm-compiler/src/lib.rs:1052-1355 | the codec of one file's definitions, parameters, lines and tokens is inverse in both directions |
| `SyntaxRecords.KindLawful` | crates/dm-compiler/src/lib.rs:1204-1262 | every token kind has its own tag, and unknown tags are refused |
| `IncrementalBuild.EveryBuildIsClean` | crates/dm-compiler/src/lib.rs:216-424 | after any line of fresh, incremental and clean builds and runtime links, the next build of any mode, if it succeeds, returns exactly the result of compiling its snapshot from scratch |
| `IncrementalBuild.BuildFailsIff` | crates/dm-compiler/src/lib.rs:248-424 | after any such line a build fails if and only if it must write a database and the one made from the clean result on top of the stored one does not save |
| `IncrementalBuild.HistoryFailsIff` | crates/dm-compiler/src/lib.rs:216-424 | after any line, a clean build succeeds where an incremental one fails if and only if a stored database cannot be reused, the database from scratch saves, and the stored one leaves a namespace no room or its runtime artifact makes the sections too many or the file too long |
| `SavedSizes.SavesOnTopIff` | crates/dm-compiler/src/lib.rs:873-1004 | given that the database from scratch saves, the one on top of a prior one saves if and only if there is room, the frontend's and the kept sections are within the record limit, and the length from scratch plus the kept sections' bytes is within the file limit |
| `SavedSizes.LengthOnTop` | crates/dm-compiler/src/persistent_database.rs:287-328 | the exact encoded length on top of a prior database: new numbers take as many bytes, only the runtime sections differ |
| `SavedSizes.SaturatedTableFails` | crates/dm-compiler/src/lib.rs:899-904 | a prior table with the last number taken: the same build validates from scratch and not on top of it |
| `IncrementalBuild.SameInputsSameSnapshot` | crates/dm-compiler/src/lib.rs:248-300 | equal recorded inputs and build digests are the same snapshot, from file versions told apart one by one |
| `BuildModes.FreshTouchesNothing` | crates/dm-compiler/src/lib.rs:309-356 | a fresh build compiles in full and neither reads nor writes the directory |
| `BuildModes.CleanForgets` | crates/dm-compiler/src/lib.rs:225-230 | a clean build forgets the directory, compiles in full and leaves the syntax cache and, if it saves, the database |
| `BuildModes.ReusableIff` | crates/dm-compiler/src/lib.rs:265-287 | the linked frontend is taken over if and only if both digests and all inputs are as recorded and its artifact decodes |
| `BuildModes.SecondBuildReuses` | crates/dm-compiler/src/lib.rs:262-303 | building the same snapshot again after a clean build takes the stored frontend over and writes nothing |
| `BuildModes.CachedSyntaxIsUsed` | crates/dm-compiler/src/lib.rs:305-320 | a syntax cache written for the same files is used whole, in every mode but a fresh one |
| `BuildModes.CacheAfterBuild` | crates/dm-compiler/src/lib.rs:321-330 | after any line, a clean build and an incremental one that compiles leave exactly the syntax cache of their snapshot, and the others leave the one they found |
| `IncrementalBuild.LineStaysConsistent` | crates/dm-compiler/src/lib.rs:216-424 | every step of such a line keeps the directory's database and syntax cache consistent with a snapshot that was built |
| `IncrementalBuild.IncrementalKeepsRuntime` | crates/dm-compiler/src/lib.rs:254-424 | an incremental build of anything keeps the linked runtime artifact |
| `IncrementalBuild.LinkDelivers` | crates/dm-compiler/src/persistent_database.rs:202-240 | linking puts the artifact into the stored database |
| `IncrementalBuild.BuildDirectory.Compile` | crates/dm-compiler/src/lib.rs:254-424 | one compiler invocation reads the prior database and cache, reuses or rebuilds, and rewrites them as specified |
| `ConstantEvaluation.EvaluationIsMeaning` | crates/dm-globals/src/constant.rs:122-316 | evaluating the written form of any tree, with any parentheses that respect the nine levels and left associativity, gives the tree's meaning, value or refusal alike; what the levels and operators are, ConstantLaws says without their definitions |
| `ConstantEvaluation.ConstantIffWritten` | crates/dm-globals/src/constant.rs:122-316 | a token sequence evaluates to a value if and only if it is the written form of a tree with that value |
| `ConstantEvaluation.WritingIsUnambiguous` | crates/dm-globals/src/constant.rs:153-172 | two trees written alike mean the same |
| `ConstantGrammar.ParenthesisedIsWellFormed` | crates/dm-globals/src/constant.rs:477-489 | every sensible tree has a parenthesised writing with the same meaning |
| `ConstantLaws.ChainMeansSplit` | crates/dm-globals/src/constant.rs:153-172 | the nine levels, written as nine operator sets: an unparenthesised chain of any length means what its parts around the last of the loosest operators mean, put together by that operator |
| `ConstantLaws.TighterOperatorFirst` | crates/dm-globals/src/constant.rs:477-489 | for any operands and operators of the nine sets, `x p y q z` groups to the right exactly when q's set is the tighter one, and `x p y` applies p; failures pass through, left before right |
| `ConstantLaws.TrailingTokenIsRefused` | crates/dm-globals/src/constant.rs:129-148 | after an operand that has a value every token but an operator of the nine sets is refused, each kind with its own category |
| `ConstantLaws.OtherSignsAreRefused` | crates/dm-globals/src/constant.rs:173-183 | nothing begins with an operator other than the four signs and the slash of a path, and no tokens are an empty expression |
| `ConstantLaws.SignsEvaluate` | crates/dm-globals/src/constant.rs:384-399 | a sign before any operand: `!` negates its truth, the other three need a number |
| `ConstantLaws.TruthTable` | crates/dm-globals/src/constant.rs:65-72 | null, zero and the empty text are false and nothing else is; what `!`, `&&` and `||` make of that |
| `ConstantLaws.EqualityTable` | crates/dm-globals/src/constant.rs:409-421 | `==` and `!=` refuse lists, compare numbers by value, and find any other two values equal only when they are the same |
| `ConstantLaws.NumericTable` | crates/dm-globals/src/constant.rs:422-447 | every other operator of the nine sets needs two numbers, and operators outside them are refused |
| `ConstantLaws.DecodesIff` | crates/dm-globals/src/constant.rs:358-382 | text decodes to a string if and only if it is plain characters and the seven known escapes reading as that string |
| `ConstantLaws.LiteralsEvaluate` | crates/dm-globals/src/constant.rs:184-215 | what a keyword, number, text or resource means by itself |
| `ConstantLaws.NamesAreRefused` | crates/dm-globals/src/constant.rs:216-245 | every other name is refused, as `new`, as a call or as a name, except where it begins a list |
| `ConstantLaws.PathsEvaluate` | crates/dm-globals/src/constant.rs:257-287 | a type path is its segments, each behind a slash |
| `ConstantCursor.EvaluateConstant` | crates/dm-globals/src/constant.rs:122-150 | the evaluator with its index over the token list computes the evaluation those laws describe, leftover tokens refused |
| `ConstantCursor.ConstantParser.ParseBinary` | crates/dm-globals/src/constant.rs:153-172 | the climbing loop leaves the cursor where the specification leaves its tokens |
| `ConstantCursor.ConstantParser.ParseList` | crates/dm-globals/src/constant.rs:289-316 | list entries, keys and the optional trailing comma |
| `ConstantCursor.ConstantParser.ParseTypePath` | crates/dm-globals/src/constant.rs:257-287 | a path absorbs every following slash and identifier |
| `ConstantCycles.CyclicConstants` | crates/dm-compiler/src/lib.rs:1985-2054 | a constant is reported if and only if it lies on a cycle of the declared dependencies, for every finite graph; ConstantEdges.EdgesIff says which dependencies those are |
| `ConstantEdges.EdgesIff` | crates/dm-compiler/src/lib.rs:1987-2026 | one constant depends on another if and only if the last definition, by file and place, that is a variable `var/.../name` with `const` in its header has an equals sign and, somewhere after it, the other's name |
| `ConstantCycles.DependencyReaches` | crates/dm-compiler/src/lib.rs:2056-2070 | the search that shares its visited set terminates, is sound, and leaves every visited node fully explored |
| `ConstantCycles.Search` | crates/dm-compiler/src/lib.rs:2056-2070 | a search from an empty visited set finds the target if and only if a walk of at least one step leads there |
| `ConstantCycles.IsCyclic` | crates/dm-compiler/src/lib.rs:2027-2033 | the per-name test is reachability of the name from itself |
| `ConstantCycles.CyclesAreReportedWhole` | crates/dm-compiler/src/lib.rs:1985-2054 | constants that reach each other are reported together |
| `ConstantCycles.OnCycleIff` | crates/dm-compiler/src/lib.rs:1985-2054 | a constant reaches itself if and only if one of its direct dependencies is the constant or leads back to it |
| `ConstantCycles.LeadingIntoACycle` | crates/dm-compiler/src/lib.rs:1985-2054 | example: of two constants, one referring to itself and one referring to that one, only the first reaches itself |
| `Expansion.ExpansionSegments` | crates/dm-project/src/lib.rs:347-402 | the explicit stack produces the same segments as recursive include-once expansion, in the same order |
| `Expansion.SeenIsLeastClosed` | crates/dm-project/src/lib.rs:347-402 | the files spliced in are exactly those the root includes, directly or through others, on include cycles too |
| `Expansion.ExpansionIsPieces` | crates/dm-project/src/lib.rs:347-402 | each included file contributes its own pieces once, other files nothing |
| `Expansion.PiecesIncrease` | crates/dm-project/src/lib.rs:375-398 | a file's segments are non-empty, in source order and disjoint |
| `Expansion.PiecesAreTheRest` | crates/dm-project/src/lib.rs:375-398 | a byte of a file is in a segment if and only if no include directive covers it |
| `Expansion.DirectivesAreTheFiles` | crates/dm-project/src/lib.rs:352-358 | sorting gives each file its own directives and no others, ordered by start |
| `Expansion.DirectivesAreSorted` | crates/dm-project/src/lib.rs:352-358 | each directive as often as the project lists it, ordered by start and then by end |
| `Expansion.DirectivesKeepTies` | crates/dm-project/src/lib.rs:352-358 | directives that cover the same bytes keep the order of the project |
| `Sweep.ExpandedDefinitionUnits` | crates/dm-compiler/src/lib.rs:3449-3487 | the sweep over segments with one moving index per file |
| `Sweep.SweepIsNaive` | crates/dm-compiler/src/lib.rs:3449-3487 | with starts in order and a file's segments increasing and disjoint, the sweep equals filtering all declarations for every segment |
| `Sweep.SweepIsIncreasing` | crates/dm-compiler/src/lib.rs:3449-3487 | with no assumption at all, each declaration comes out at most once and in increasing order per file |
| `Sweep.EveryDeclarationIsSpliced` | crates/dm-compiler/src/lib.rs:3449-3487 | with starts in order, a declaration is emitted if and only if its file is included and it starts outside the include directives |
| `SpriteAtlas.BuildAtlas` | crates/dm-client/src/gpu.rs:534-625 | a returned atlas shows every sprite pixel for pixel at its placement, placements with an area are in bounds and all are disjoint; refuses a width if and only if one sprite is too wide; never aborts when shelves fit in 32 bits |
| `SpriteAtlas.InBoundsIff` | crates/dm-client/src/gpu.rs:551-569 | all placements lie inside the atlas if and only if the shelves need less than two to the 32 rows, so exactly when nothing saturates |
| `SpriteShelves.AtlasWidthIs` | crates/dm-client/src/gpu.rs:540-544 | for sprites that are not too wide the atlas is as wide as all of them in one row, at least 1 and at most 4096 |
| `SpriteShelves.FirstPlacement` | crates/dm-client/src/gpu.rs:549-563 | the first sprite stands in the corner |
| `SpriteShelves.StoredPlacement` | crates/dm-client/src/gpu.rs:558-566 | what is stored differs from the exact placement only in rows beyond 32 bits |
| `SpriteShelves.NextPlacement` | crates/dm-client/src/gpu.rs:558-566 | every sprite stands beside the one before if the width allows, and otherwise at the left under everything placed so far |
| `SpriteShelves.AtlasHeightIs` | crates/dm-client/src/gpu.rs:567 | the atlas ends where its lowest sprite ends |
| `SpriteAtlas.PlacementsAreDisjoint` | crates/dm-client/src/gpu.rs:551-567 | two placements share no texel unless saturation pushed the later one past the last row |
| `SpriteAtlas.TooWideIff` | crates/dm-client/src/gpu.rs:539-548 | the width check refuses exactly when a single sprite exceeds 4096 |
| `SpriteAtlas.CopySprite` | crates/dm-client/src/gpu.rs:582-606 | the row copy writes the sprite at its place and nothing elsewhere |
| `SpriteAtlas.PlaceSprites` | crates/dm-client/src/gpu.rs:551-569 | the shelf loop computes the specified placements and height |
| `SpriteAtlas.CopyKeepsEarlier` | crates/dm-client/src/gpu.rs:580-607 | no later copy overwrites an earlier sprite |
| `SheetAtlas.DmiAtlas.EnsureSheet` | crates/dm-client/src/gpu.rs:435-524 | one request keeps the packing valid and moves and overwrites nothing; a new sheet is granted if and only if it is well formed and there is height left where it goes, beside the last sheet or on a new shelf |
| `SheetAtlas.RegionsNeverOverlap` | crates/dm-client/src/gpu.rs:435-524 | over every run of requests, failed ones included, regions are disjoint and inside the texture |
| `SheetAtlas.RegionsNeverMove` | crates/dm-client/src/gpu.rs:435-524 | a later request for a granted sheet gets the same region, or a refusal if its size changed |
| `SheetAtlas.GrantSurvives` | crates/dm-client/src/gpu.rs:435-524 | a granted sheet keeps its region and its uploaded pixels for the rest of the run |
| `SheetAtlas.RequestKeepsPacking` | crates/dm-client/src/gpu.rs:435-524 | what one request keeps of the whole shelf state |
| `SheetAtlas.GrantedIff` | crates/dm-client/src/gpu.rs:453-521 | when a new sheet is granted, where it goes and what the shelf is afterwards, also after a refusal for height |
| `SheetAtlas.RefusedIff` | crates/dm-client/src/gpu.rs:440-485 | the exact condition of each of the five refusals |
| `SheetAtlas.RowIsGranted` | crates/dm-client/src/gpu.rs:476-521 | from an empty atlas, different sheets whose widths add up to the atlas stand side by side in the order they were asked for |
| `SheetAtlas.StackIsGranted` | crates/dm-client/src/gpu.rs:476-521 | from an empty atlas, different sheets whose heights add up to the atlas are all granted, whatever their widths and order |
| `Appearances.DecodeReadsTree` | crates/dm-client/src/transport.rs:1208-1309 | wherever a tree's rows stand, the decoder consumes exactly them and yields underlays, the visible node, overlays |
| `Appearances.DecodedIsTree` | crates/dm-client/src/transport.rs:1208-1309 | whatever decodes was the pre-order rows of a tree |
| `Appearances.StrictPrefixIsRejected` | crates/dm-client/src/transport.rs:1208-1309 | a tree cut short anywhere is refused |
| `Appearances.OneIdentity` | crates/dm-client/src/transport.rs:1232-1235 | everything decoded from one tree carries the root's identity |
| `Appearances.ServerTreeRoundTrips` | crates/dm-lifecycle/src/ipc/text_encoding.rs:78-113 | the rows the server writes for an appearance, taken as columns, decode to its tree, whatever rows follow |
| `Appearances.ServerRowReadsBack` | crates/dm-lifecycle/src/ipc/text_encoding.rs:78-106 | the client reads identity and child counts of a server row as the server meant them, through hexadecimal and decimal text |
| `Appearances.ColumnsRead` | crates/dm-client/src/transport.rs:1214-1241 | which column means what, and which rows are refused |
| `Appearances.DrawnBetween` | crates/dm-client/src/transport.rs:1242-1290 | what is under a node is drawn before it and what is over it after, all under the root's identity |
| `Appearances.FirstCodecReads` | crates/dm-client/src/transport.rs:1217-1222 | a row of the first codec reads as the row with its missing column put back |
| `AppearanceText.ServerTextRoundTrips` | crates/dm-lifecycle/src/ipc/text_encoding.rs:78-113 | the text the server writes for an appearance with token columns, whatever text follows, splits into lines and columns and decodes to its tree |
| `AppearanceText.RowReadsBackIff` | crates/dm-client/src/transport.rs:1214-1216 | a row written with single spaces and split at ASCII white space comes back if and only if no column is empty or holds white space |
| `AppearanceText.TextReadsBack` | crates/dm-client/src/transport.rs:727-727 | written rows of tokens come back through line splitting, carriage returns included, and what follows is read for itself |
| `AppearanceText.CarriageReturnsEndLines` | crates/dm-client/src/transport.rs:727-727 | a line may as well end in a carriage return and a line feed |
| `AppearanceText.EmptyTypePathIsRefused` | crates/dm-lifecycle/src/ipc/text_encoding.rs:78-106 | an appearance with an empty type path comes back one column short and is refused |
| `Appearances.AppearanceReader.ParseTree` | crates/dm-client/src/transport.rs:1208-1309 | the recursive decoder with shared cursor and output vector terminates on arbitrary rows and computes the specification |
| `Numerals.ParsePrinted` | crates/dm-client/src/transport.rs:1224-1241 | parsing a printed number gives the number back |
| `Numerals.ParseAccepts` | crates/dm-dmf/src/lib.rs:420-429 | which decimal and hexadecimal numerals are accepted |
| `Replay.PlaybackRepeatsSessionIff` | crates/dm-client/src/transport.rs:346-462 | after recording, reopening and any interleaving, the k-th issue of a command gets its k-th recorded reply if and only if it is no resource request or that reply equals the first |
| `Replay.ResourceGetsFirstReply` | crates/dm-client/src/transport.rs:358-447 | however often a recorded resource is requested, playback answers with its first reply |
| `Replay.SecondReplyIsForgotten` | crates/dm-client/src/transport.rs:358-447 | a session with two different replies to one resource plays the first one twice |
| `Replay.FileReads` | crates/dm-client/src/transport.rs:373-404 | a recording reads back as its entries |
| `Replay.EntryIs` | crates/dm-client/src/transport.rs:449-456 | a recorded exchange is the command and then the response, each behind its length in four bytes |
| `Replay.ReadIsFile` | crates/dm-client/src/transport.rs:373-404 | whatever reads as a recording is one, up to an incomplete length at the end |
| `Replay.CutRecordingIsPrefix` | crates/dm-client/src/transport.rs:464-480 | a recording cut anywhere is refused or plays a prefix of the session |
| `Replay.KeptReplies` | crates/dm-client/src/transport.rs:358-366 | the file keeps every reply to ordinary commands and the first reply to each resource |
| `Replay.OpenReplay` | crates/dm-client/src/transport.rs:374-413 | the reading loop accepts exactly the recordings and loads their queues |
| `Replay.ReplayRecorder.Record` | crates/dm-client/src/transport.rs:358-366 | appends one exchange to the recording, or nothing for a repeated resource |
| `Replay.ReplayReader.Issue` | crates/dm-client/src/transport.rs:415-447 | the next queued reply, or the fallback for the command's kind |
| `Replay.ExhaustedAnswers` | crates/dm-client/src/transport.rs:414-446 | once the recorded replies to a command are used up, what each of the seven kinds is answered and that every other command is refused |
| `Assignments.ParseInvertsJoin` | crates/dm-dmf/src/lib.rs:1387-1440 | joining quoted assignments with semicolons and parsing gives the same list, whatever the values hold |
| `Assignments.RoundTripsIff` | crates/dm-dmf/src/lib.rs:1387-1440 | a name survives quoting and parsing with every value if and only if it is trimmed, non-empty, free of the equals sign and scans without separator or open quote |
| `Assignments.PlainNameRoundTrips` | crates/dm-dmf/src/lib.rs:1387-1440 | a trimmed, non-empty name free of the equals sign, semicolons and quotes survives with every value |
| `Assignments.ParseInvertsBareJoin` | crates/dm-dmf/src/lib.rs:1387-1440 | joining unquoted plain assignments with semicolons and parsing gives the same list |
| `Assignments.QuotedValueReads` | crates/dm-client/src/transport.rs:1089-1091 | the quoted form of any value is read back whole |
| `Assignments.ParseAssignments` | crates/dm-dmf/src/lib.rs:1387-1412 | the scanning loop with its quote and escape flags computes the specified list or the first error |
| `Assignments.QuotedContent` | crates/dm-dmf/src/lib.rs:1786-1822 | the unescaping loop, its decoded text and the count consumed |
| `Assignments.ParseAssignment` | crates/dm-dmf/src/lib.rs:1414-1440 | one assignment, bare or quoted, or its error |
| `UiStates.WingetReadsWinset` | crates/dm-dmf/src/lib.rs:557-700 | after a successful winset, winget at the same address returns the last assignment to the property, and the old value of every other property if the control already resolved; UiNames says when two names are the same property |
| `UiNames.SameNameIff` | crates/dm-dmf/src/lib.rs:687-702 | two names are one property if and only if they differ at most in the case of ASCII letters, by character codes |
| `UiNames.RecasedWinget` | crates/dm-dmf/src/lib.rs:627-707 | every casing of a property name reads the same value |
| `UiNames.RecasedWinsetReads` | crates/dm-dmf/src/lib.rs:557-707 | the last assignment of a winset to a name in any casing is what winget returns under every casing |
| `UiNames.AssignedIff` | crates/dm-dmf/src/lib.rs:676-690 | a runtime value is that of the last assignment whose name is alike, and there is none if no name is |
| `UiNames.DeclaredIff` | crates/dm-dmf/src/lib.rs:385-391 | the same for what the skin declares |
| `Addresses.BareMeans` | crates/dm-dmf/src/lib.rs:990-1030 | a bare id means the one window that has such a control in the skin, at runtime or through a clone; it is unknown when none has and ambiguous when several have |
| `Addresses.PairMeans` | crates/dm-dmf/src/lib.rs:1031-1063 | a pair means the control of the first clone of that name, else the first runtime assignment it fits, else the skin's control, else nothing |
| `Addresses.ReadsRuntime` | crates/dm-dmf/src/lib.rs:675-690 | winget returns the last runtime value of the control's own assignments |
| `Addresses.ReadsSkin` | crates/dm-dmf/src/lib.rs:691-707 | without one it returns the last declared value of the skin's control, for a clone that of its source, and otherwise the empty text |
| `Addresses.CreatedUnder` | crates/dm-dmf/src/lib.rs:563-590 | an unknown bare address is created in the window its first `parent` names, or in that of the control it names, and is refused without one |
| `Addresses.CreatedPair` | crates/dm-dmf/src/lib.rs:591-607 | an unknown pair is created only in the very window its parent names |
| `Selectors.SelectedIsEarliest` | crates/dm-dmf/src/lib.rs:956-988 | a `:type` address selects the identified control of that type before which no other comes: defaults first, then by window and control name, character by character |
| `Selectors.SelectedWhen` | crates/dm-dmf/src/lib.rs:956-988 | when a `:type` address selects something and when it does not |
| `Selectors.TypeNamedIff` | crates/dm-dmf/src/lib.rs:453-464 | the seven type names, in any casing |
| `UiStates.OtherControlsUnchanged` | crates/dm-dmf/src/lib.rs:557-700 | an address that is stable for the written key and does not mean it reads, or is refused, as before |
| `UiStates.ResolvesAlikeIff` | crates/dm-dmf/src/lib.rs:955-1079 | a write under a key changes what an address means if and only if the address is not stable for the key, a condition on the state before: the key's first override is one more place, or the first, a bare id or a pair could mean |
| `UiStates.QuotedWinsetReadsBack` | crates/dm-dmf/src/lib.rs:557-700 | values sent quoted are the values read |
| `UiStates.TargetResolves` | crates/dm-dmf/src/lib.rs:557-615 | the written address means the written control afterwards, controls created through their parent included |
| `UiStates.ResolvedStaysResolved` | crates/dm-dmf/src/lib.rs:955-1079 | storing an override under the key an address means does not change what it means |
| `UiStates.CreatedResolves` | crates/dm-dmf/src/lib.rs:563-603 | a control created under its parent is what its address means from then on |
| `UiStates.AssignKeeps` | crates/dm-dmf/src/lib.rs:604-620 | keys and case-folded names stay unique, the assigned control reads as assigned, all others as before |
| `UiWindows.ListingAgrees` | crates/dm-dmf/src/lib.rs:710-746 | winget_all and winget agree on every listed entry, and what is listed under no spelling reads as empty |
| `UiWindows.WincloneKeeps` | crates/dm-dmf/src/lib.rs:900-948 | cloning keeps keys and names unique |
| `UiWindows.CloneReadsLikeSource` | crates/dm-dmf/src/lib.rs:900-933 | a window cloned to a name without runtime state reads, at every key but one named like the destination, like its source |
| `UiWindows.CloneAddressReads` | crates/dm-dmf/src/lib.rs:900-1079 | the same by address: window.control of the source and the corresponding address of the clone read alike |
| `UiWindows.CloneSparesOthers` | crates/dm-dmf/src/lib.rs:900-933 | cloning a window leaves every other window's runtime values alone |
| `Winclones.ClonedIff` | crates/dm-dmf/src/lib.rs:906-952 | winclone of a window is granted to every name but the empty one, and of a control if and only if both addresses mean one; which error otherwise |
| `Winclones.CloneOverwrites` | crates/dm-dmf/src/lib.rs:918-937 | cloning onto a name in use replaces a control's runtime values where the source has some, and only there |
| `Winclones.CloneIsRemembered` | crates/dm-dmf/src/lib.rs:918-923 | the newest clone of a name is the one it means, and clones of other names stay |
| `Winclones.ControlCloneReads` | crates/dm-dmf/src/lib.rs:940-951 | a control clone takes the other control's runtime values and keeps its own skin, and nothing else changes |
| `UiWindows.BareIdTurnsAmbiguous` | crates/dm-dmf/src/lib.rs:1049-1062 | concrete skin in which writing a macro element by its qualified name makes its bare name ambiguous |
| `UiWindows.UiState.WinsetParameters` | crates/dm-dmf/src/lib.rs:557-620 | the in-place update computes the state that WingetReadsWinset, UiNames and Addresses describe; on an error nothing changes |
| `UiWindows.UiState.WingetProperty` | crates/dm-dmf/src/lib.rs:675-706 | the runtime value, else the declared one, else empty, as Addresses.ReadsRuntime and ReadsSkin describe |
| `UiWindows.UiState.WingetAllProperties` | crates/dm-dmf/src/lib.rs:710-746 | the merging loop computes the listing |
| `UiWindows.UiState.WincloneTo` | crates/dm-dmf/src/lib.rs:900-948 | the copying loop computes the specified clone |
| `UiWindows.UiState.OverridesMut` | crates/dm-dmf/src/lib.rs:1081-1098 | finds or appends the override of a key |
| `BrowserWindows.EnsureBrowserWindow` | crates/dm-dmf/src/lib.rs:885-900 | the two in-place steps, cloning the popup template and configuring the clone, compute the specified state and error |
| `BrowserWindows.EnsureBrowserIff` | crates/dm-dmf/src/lib.rs:885-900 | for a name nothing answers to, the window is refused if and only if there is no template or the name is dotted or will not settle on one meaning; what is left behind is the clone |
| `BrowserWindows.BareSettlesIff` | crates/dm-dmf/src/lib.rs:955-1079 | after the clone a bare name resolves if and only if its rivals and the clone's own answer, both read off the state before, agree on one window |
| `BrowserWindows.DottedKeepsMeaning` | crates/dm-dmf/src/lib.rs:955-1079 | cloning to a dotted name does not change what the name means |
| `BrowserWindows.RefusedBrowseLeavesClone` | crates/dm-dmf/src/lib.rs:885-900 | with a template, every dotted name that means nothing and was not cloned before is refused, and the clone stays |
| `BrowserWindows.UnknownNameIff` | crates/dm-dmf/src/lib.rs:885-900 | a bare name that means nothing is refused if and only if neither the template nor its runtime state has a control named like the template, and its runtime state none named like the window |
| `BrowserWindows.AmbiguousNameIsRefused` | crates/dm-dmf/src/lib.rs:885-900 | an ambiguous name to which the clone also answers is refused |
| `BrowserWindows.RefusedAgain` | crates/dm-dmf/src/lib.rs:885-900 | the same request after a refusal is refused again, whatever the refusal left behind |
| `RepeatedClones.RefusedTwice` | crates/dm-dmf/src/lib.rs:885-933 | a request refused again leaves exactly what its first refusal left |
| `RepeatedClones.CloneAgain` | crates/dm-dmf/src/lib.rs:900-933 | cloning a window to the same name a second time changes nothing, colliding controls and a window cloned onto itself included |
| `BrowserWindows.GrantedIsBrowser` | crates/dm-dmf/src/lib.rs:893-899 | a granted window answers to its name and reads type BROWSER, is-visible true and pos 0,0 |
| `BrowserWindows.IsBrowserIff` | crates/dm-dmf/src/lib.rs:773-807 | a window counts as a browser by its runtime type in any casing, or by the skin's when that is blank |
| `BrowserWindows.TemplateIs` | crates/dm-dmf/src/lib.rs:893-899 | the template is the window or section with the id `popupwindow` |
| `UiDelivery.ExactlyOnceInOrder` | crates/dm-client/src/main.rs:1604-1689 | over every run on one connection, whatever is lost or deferred, the presentation is the numbered events up to the last sequence applied once each in order, with what one try of the next event left if the run tried and refused it, and the server has dropped nothing beyond; for logs whose refused events, tried again at their turn, change nothing more |
| `UiDelivery.CleanRefusalsShowLog` | crates/dm-client/src/main.rs:1604-1689 | where refusals at their turn leave nothing behind, the presentation is exactly the applied events |
| `UiDelivery.BrowserUpdatesCompleteIff` | crates/dm-client/src/main.rs:1635-1650 | for the same logs, the browser owner got every update in order if and only if in no round the first commit over the queue's capacity, counted over the deferred and polled events up to a refusal, was an update |
| `UiDelivery.PassIsCapped` | crates/dm-client/src/main.rs:1619-1677 | for every batch, what is queued is what the events ask for, updates and resources, up to the capacity; an update is counted lost exactly when it is the first commit beyond |
| `UiDelivery.RunMisses` | crates/dm-client/src/main.rs:1604-1689 | over every run, nothing is lost if and only if no round overruns the queue |
| `UiDelivery.LossIsForGood` | crates/dm-client/src/main.rs:1604-1689 | an update lost once is missing after every continuation of the run |
| `UiDelivery.RefusedResourceIsAcknowledged` | crates/dm-client/src/main.rs:1655-1668 | one round: when the first commit beyond the capacity is a resource, its event is acknowledged all the same, and the server drops it if the acknowledgement arrives |
| `ResourceDelivery.ResourcesCompleteIff` | crates/dm-client/src/main.rs:1604-1689 | over every run, the resource of every event the server dropped was queued at least once, and run by the owner, if and only if no round whose acknowledgement arrives has as first commit beyond the capacity a resource queued neither before nor earlier in the round |
| `ResourceDelivery.DeliveredIsTrace` | crates/dm-client/src/main.rs:2014-2032 | what the owner ran over a run is, commit by commit, what the rounds queued, each for its event |
| `ResourceDelivery.LostResourceStaysLost` | crates/dm-client/src/main.rs:1604-1689 | a resource dropped without having been queued is never queued, whatever follows |
| `ResourceLoss.ResourcesServedIff` | crates/dm-client/src/main.rs:1655-1668 | resources produced together: the round that fetches them loses one if and only if they are too many and the acknowledgement arrives; after a failed acknowledgement the next round loses one if and only if they are too many |
| `ResourceLoss.FailedAcknowledgementSaves` | crates/dm-client/src/main.rs:1655-1668 | a resource behind a full queue of updates is lost when the acknowledgement arrives and saved when it fails and the next round has room |
| `OwnerQueueLoss.LinksOpenedIff` | crates/dm-client/src/main.rs:1635-1650 | links produced together and fetched in one undisturbed round are all opened if and only if there are no more of them than the queue holds |
| `UiDelivery.UndisturbedRoundCatchesUp` | crates/dm-client/src/main.rs:1604-1689 | one undisturbed round with acceptable events and room in the queue shows everything and empties the server's batch |
| `UiDelivery.StepKeepsInvariant` | crates/dm-lifecycle/src/ipc.rs:729-766 | every step of server and client keeps the delivery invariant, for logs whose refused events, tried again, change nothing more |
| `RefusedEvents.NothingIsDropped` | crates/dm-lifecycle/src/ipc.rs:729-766 | over every run, whatever refusals leave behind, the server keeps every event the client has not applied and the client holds no event it could skip to |
| `RefusedEvents.RefusalStopsDelivery` | crates/dm-client/src/main.rs:1604-1689 | once the next event is refused now and ever after, no continuation of the run applies it or any later event |
| `UiDelivery.UiOwnerCommandQueue.Push` | crates/dm-client/src/main.rs:142-156 | accepts exactly a current-generation command with room left, and counts refusals |
| `UiDelivery.RaisedIs` | crates/dm-client/src/main.rs:142-156 | the counters of dropped and refused commands stop at the last 64-bit number |
| `UiDelivery.UiOwnerCommandQueue.PopCurrent` | crates/dm-client/src/main.rs:158-166 | the oldest command of the current generation, stale ones dropped on the way |
| `UiDelivery.UiOwnerCommandQueue.AdvanceGeneration` | crates/dm-client/src/main.rs:131-140 | keeps exactly the commands of the new generation and counts the dropped |
| `ClientSessions.RefusalLeavesTraceIff` | crates/dm-client/src/ui_commands.rs:180-285 | a refused command changes presentation, session or window state if and only if it is a page for a name nothing answers to, with a template to clone, that will not settle, unless that very clone was there already |
| `ClientSessions.AtomicAlongIff` | crates/dm-client/src/ui_commands.rs:180-285 | refusals along a log leave nothing behind if and only if none of its pages strands a clone at its turn |
| `ClientSessions.PresentationIsTheEventLog` | crates/dm-client/src/ui_commands.rs:180-285 | over every run of the client's own commands, session and window state: everything up to the last sequence is applied once in order; the client shows that, with one clone added if and only if the next command was tried and strands it, however often it was tried; and the exact condition for complete browser updates |
| `ClientSessions.NoTemplateNoneStranded` | crates/dm-client/src/ui_commands.rs:246-264 | a skin without a popup template strands nothing, whatever the log |
| `ClientSessions.NoTemplateShowsLog` | crates/dm-client/src/ui_commands.rs:180-285 | with such a skin the client shows, after every run, exactly what the applied commands lead to |
| `ClientSessions.WinsetShows` | crates/dm-client/src/ui_commands.rs:192-207 | a property write reaches the window state and the layout made from it, or is refused and changes nothing |
| `ClientSessions.WrittenIsRead` | crates/dm-client/src/ui_commands.rs:192-207 | after an applied write every casing of a written name reads the last value written |
| `ClientSessions.PageMakesWindow` | crates/dm-client/src/ui_commands.rs:254-269 | a page for a name that means nothing is shown in the window then made for it, or refused with what that left |
| `ClientSessions.StrandingShows` | crates/dm-client/src/ui_commands.rs:246-264 | one round with a page that strands a clone: nothing is applied and the client shows its state with the clone added |
| `ClientSessions.RefusedCommandStopsDelivery` | crates/dm-client/src/ui_commands.rs:180-285 | once the client refuses the next command, no continuation of the run applies it or any later one |
| `ClientSessions.RetainedOverRuns` | crates/dm-client/src/ui_commands.rs:225-231 | over every run the lines a control retains are as many as the limit allows and, line for line, the end of everything the applied events wrote to it |
| `UiCommands.CommandsCommitOnce` | crates/dm-client/src/ui_commands.rs:180-285 | no command leaves both a browser update and a resource behind |
| `UiCommands.OutputIsTranscriptTail` | crates/dm-client/src/ui_commands.rs:225-231 | for every log and control whose limit stays the same, the lines kept are as many as the limit allows and, line for line, the end of the transcript |
| `UiCommands.UiPresentation.Apply` | crates/dm-client/src/ui_commands.rs:180-285 | the sequence guard and the per-command change of the presentation, which the rows below describe command by command |
| `UiCommands.OutputShowsMessage` | crates/dm-client/src/ui_commands.rs:208-247 | a message for an output control keeps the end of the old lines and its own, so that with any limit its last line is the last one kept |
| `UiCommands.AskWaitsItsTurn` | crates/dm-client/src/ui_commands.rs:270-279 | a question waits behind those asked before it, preset to the default and to the first place of the default among its choices |
| `UiCommands.LastAssetIsKept` | crates/dm-client/src/ui_commands.rs:248-253 | after every log a path holds the last asset sent for it |
| `UiCommands.OwnersCommands` | crates/dm-client/src/ui_commands.rs:191-280 | links and sounds go to the browser owner and change nothing of the presentation |
| `UiCommands.LocalClient.ApplyInboundUi` | crates/dm-client/src/main.rs:1604-1697 | defers, applies, queues, drains, names the sequence to acknowledge and activates a waiting prompt, as specified; no prompt is lost, repeated or reordered |
| `UiCommands.LocalClient.FinishActivePrompt` | crates/dm-client/src/main.rs:1819-1834 | an answered prompt is followed by the one asked next; an answer that was not sent changes nothing |
| `UiCommands.LocalClient.ApplyEvent` | crates/dm-client/src/main.rs:1619-1677 | one event of a batch, ended by a refusal or a full queue |
| `Panes.PaneResolver.ResolvePaneWindow` | crates/dm-client/src/layout.rs:280-346 | terminates on every skin, cyclic references included, restores the active stack and computes the specified map |
| `Panes.LayoutTilesViewport` | crates/dm-client/src/layout.rs:280-346 | for a tree of full-size, fully anchored panes, none reused, the leaves' rectangles cover every viewport pixel exactly once, the layout holds no other address, and it places every leaf if the leaves have addresses of their own |
| `Panes.LeavesOwnAddresses` | crates/dm-client/src/layout.rs:280-346 | distinct window ids without dots give every leaf an address of its own |
| `Panes.LeavesTile` | crates/dm-client/src/layout.rs:395-444 | the leaves of any pane tree partition its viewport, under saturating multiplication too |
| `Panes.HalvesPartition` | crates/dm-client/src/layout.rs:395-444 | the two halves of a split are disjoint and cover it |
| `Panes.SplitShares` | crates/dm-client/src/layout.rs:400-444 | a vertical split divides the width and a horizontal one the height, the first half getting the percentage asked for, rounded down |
| `Panes.AnchorsMoveEdges` | crates/dm-client/src/layout.rs:356-398 | the first anchor moves the left and top edges and the second the right and bottom ones by their percentage of the growth of the window |
| `Panes.FullSizeFills` | crates/dm-client/src/layout.rs:348-393 | a full-size control anchored to all edges fills its target exactly |
| `PaneSkin.SurfaceIsTiled` | crates/dm-client/src/layout.rs:229-346 | the same for the root window of a whole window state, every leaf placed if the window ids are distinct and free of dots |
| `PaneSkin.ResolvePaneLayout` | crates/dm-client/src/layout.rs:229-278 | chooses the root window and viewport and resolves it |
| `PaneReadings.RootIs` | crates/dm-client/src/layout.rs:229-247 | the root is the first window with a default main control |
| `PaneReadings.RootOtherwise` | crates/dm-client/src/layout.rs:229-247 | without one it is the first window |
| `PaneReadings.ViewportIs` | crates/dm-client/src/layout.rs:248-266 | the viewport is the surface, or as large as the root's first main control, or 1024 by 768 |
| `PaneReadings.PlacedIff` | crates/dm-client/src/layout.rs:311-329 | which controls are placed, under which address, and which of them split |
| `PaneReadings.PlacedTakes` | crates/dm-client/src/layout.rs:324-341 | a placed control takes its rectangle, anchors and split from its own address |
| `PaneReadings.RectReads` | crates/dm-dmf/src/lib.rs:395-429 | a skin rectangle is its pos around a comma and its size around an x |
| `PaneReadings.RuntimeRect` | crates/dm-client/src/layout.rs:453-472 | a readable runtime pos moves a control and a readable size resizes it |
| `PaneReadings.AnchorReads` | crates/dm-client/src/layout.rs:389-392 | an anchor is two signed 32-bit numbers around a comma |
| `PaneReadings.SignedIsBounded` | crates/dm-client/src/layout.rs:389-392 | no number outside 32 bits is read as an anchor |
| `Panes.TruncatedIs` | crates/dm-client/src/layout.rs:394-398 | an anchor's share is rounded toward zero |
| `PaneReadings.ShareReads` | crates/dm-client/src/layout.rs:330-341 | the split share: the number given, at most 100, or half when it cannot be read |
| `PaneReadings.WordsIff` | crates/dm-client/src/layout.rs:5-17 | the words for yes and no, in any casing and with any white space around |
| `Strings.WhiteCodes` | crates/dm-client/src/layout.rs:5-17 | the twenty-five white characters that trimming takes away |
| `PaneSkin.PaneWindowsAreBounded` | crates/dm-client/src/layout.rs:325-330 | no splitter asks for more than the whole, whatever the skin or the game set |

## Left out

- Error texts and source spans: errors are modelled by their category only.
- Files, temporary siblings, renames, sockets, windows, GPU calls and clocks; a build directory is two optional byte
  strings, and the texture is what uploads promise of it.
- Failures to write the syntax cache, which the compiler ignores, and the cache of loaded project snapshots.
- Worker threads of the syntax pass: `ParseProject` goes file by file; the source collects in the same order.
- Unstable sorts are modelled by their result: sorted without loss.
- The tables of line-based checks other than cyclic constants, and the span a cyclic constant is reported at.
- The exact binary32 operations and the number spellings of constants.
- `PersistentCompilerDatabase`: page IDs are unbounded while pages are numbered; the source would need more than a
  million pages of one section to tell.
- `StableIds.FreshIdIsNew`: states the new number against the prior table only, because the table forgets names that
  are absent for a build.
- `SpriteAtlas.BuildAtlas`: the per-instance texture coordinates, which are binary32 quotients, are not modelled; a row
  beyond the buffer is an abort; 32-bit sums wrap, as in a build without overflow checks; the width test inside the
  packing loop can never fire after the test before it and is not repeated; on 32-bit targets the length of the pixel
  buffer could overflow the address space, which is not modelled.
- `SheetAtlas.DmiAtlas.constructor`: takes every limit below the last 32-bit number; the one caller passes at most 8192
  (crates/dm-client/src/gpu.rs:124).
- `Appearances.DecodeReadsTree`: the recursion depth of the native stack is not modelled.
- `AppearanceText.ServerTextRoundTrips`: the columns besides identity and counts are any tokens; that the server's
  hexadecimal and decimal columns are tokens is their spelling, which only `EmptyTypePathIsRefused` looks into.
- `UiStates.Winget`: addresses with a semicolon list or a `.*` wildcard are not modelled; the wildcard over a control
  named `*` does not terminate in the source.
- `UiDelivery.ExactlyOnceInOrder`: covers one connection; the server's sequence numbers are not saturated at 64 bits,
  and a client without a session is not modelled.
- `ClientSessions.PresentationIsTheEventLog`: the session changes through inbound events only; window commands a page
  sends from an embedded browser are not modelled, and the layout refresh after a winset is a parameter.
- `UiCommands.LocalClient.ApplyInboundUi`: typing into the active prompt, macro bindings, readiness reports and redraws
  are not modelled.
- `UiCommands.OutputIsTranscriptTail`: needs a limit that does not change along the log; raising it later cannot bring
  back lines already dropped.
- `UiWindows.CloneReadsLikeSource`: a control of the source named like the destination has no address in the clone,
  where that name means the source's own control.
- `Panes.LayoutTilesViewport`: a splitter whose left window is missing leaves its share uncovered and is not a pane
  tree; anchors whose product exceeds 64 bits are computed exactly; 32-bit sums wrap as in a build without overflow
  checks.
- `Replay.ReplayRecorder.Record`: an entry of four gigabytes or more is refused after part of it is written, as in the
  source; nothing is claimed of the file then.
- `Sweep.SweepIsNaive`: needs declarations in order of their original starts; the order of spans after macro expansion
  comes from the project loader, which is not part of this model.
- PNG and DMI decoding, audio, menus, the object tree, the virtual machine and command-line handling.
