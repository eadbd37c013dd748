# neoVEO control-file interpreter and XML cursor, in Dafny

This project models two pieces of neoVEO, the Public Record Office Victoria
toolkit for building and checking VERS Encapsulated Objects (VEOs).

The first piece is `CreateVEOs.buildVEOs(BufferedReader)`. It reads a
tab-separated control file line by line. Each line drives a small state
machine (`PREAMBLE`, `VEO_STARTED`, `VEO_FAILED`, plus the VEO in progress,
the signer list and the hash algorithm), and each step makes calls on a
`CreateVEO` builder. The model is a pure step function:

- it maps a session and a tokenised line to a new session, the calls made
  (each with the builder's reply) and an outcome;
- the outcome is `Continue`, `Halt` (a `VEOFatal` from the builder, so
  `buildVEOs` returns), `Throw` (a `VEOFatal` thrown by `buildVEOs` itself)
  or `Crash` (an uncaught array index error);
- the step is folded over the lines, and then the end-of-stream
  finalisation runs.

Everything outside the method's own code is an oracle in `Env`:

- the builder's replies, indexed by position in the run's trace;
- `toRealPath`;
- PFX loading;
- the IP regular-file probe;
- URL well-formedness;
- template lookup;
- the `versDateTime(0)` string.

The second piece is the element cursor and the two diagnostic renderers of
`RepnXML`:

- A DOM document is an immutable tree of `Node`s.
- A node is identified by its path of child indices from the document node.
- `elements` is the preorder list of element paths, which is what
  `getElementsByTagNameNS("*", "*")` returns.
- `parse` keeps only its guard and flag logic; whether the file parses and
  validates is an oracle. `abandon` drops the parser, so a later `parse`
  that needs it fails with a null pointer.

Modules:

| file | module | what |
|---|---|---|
| java_text.dfy | JavaText | `String.trim`, ASCII `toLowerCase`, `Integer.parseInt`, decimal output |
| control_line.dfy | ControlLine | `split("\t")`, the `<tab>` escape, keyword matching, `$$` splitting |
| file_paths.dfy | FilePaths | `Paths.get`, `resolve` and the `getRealFile` rule |
| builder.dfy | Builder | builder calls and replies, `try` blocks, the open/closed VEO protocol |
| interpreter.dfy | CreateVeos | the session, every command, the loop and `buildVEOs` |
| interpreter_facts.dfy | CreateVeosFacts | properties of single steps and of whole runs |
| dom.dfy | Dom | DOM tree, node paths, preorder element list and document order |
| repn_xml.dfy | RepnXml | `parse` guards, `abandon`, the cursor, `gotoSibling`, `gotoParentSibling`, `getTextValue` |
| render.dfy | DomRender | `prettyPrintNode`, `dumpNode` and their preorder line lists |

## Model

| member | source | states |
|---|---|---|
| JavaText.Trim | src/VEOCreate/CreateVEOs.java:692 | `trim()` returns the slice between the leading and trailing runs of characters at or below U+0020; a non-empty result starts and ends with a character above U+0020 |
| JavaText.TrimUnique | src/VEOCreate/CreateVEOs.java:692 | any string with only chars at or below U+0020 around a middle part that is empty or starts and ends above U+0020 trims to that part |
| JavaText.TrimDropsBlankEnds | src/VEOCreate/CreateVEOs.java:692 | chars at or below U+0020 added at both ends do not change what a string trims to |
| JavaText.TrimIdempotent | src/VEOCreate/CreateVEOs.java:692 | trimming a trimmed string changes nothing |
| JavaText.TrimEmptyIffBlank | src/VEOAnalysis/RepnXML.java:513-515 | a value trims to "" exactly when every character is at or below U+0020, the blank test of `prettyPrintNode` |
| JavaText.LowerCase | src/VEOCreate/CreateVEOs.java:692 | `toLowerCase()` keeps the length and lowers each character on its own |
| JavaText.LowerCaseMeaning | src/VEOCreate/CreateVEOs.java:692 | after `toLowerCase()` no upper-case ASCII letter is left. Each upper-case letter becomes its lower-case letter in place, and every other character is kept |
| JavaText.LowerCaseIdempotent | src/VEOCreate/CreateVEOs.java:692 | lower-casing twice is lower-casing once |
| JavaText.ParseInt | src/VEOCreate/CreateVEOs.java:868-875 | `Integer.parseInt` yields a value only for an optional sign followed by digits, with no blanks, and the value is within the 32-bit range |
| JavaText.ParseShowRoundTrip | src/VEOCreate/CreateVEOs.java:868-875 | every 32-bit int written in decimal parses back to itself |
| JavaText.ParseIntEdgeCases | src/VEOCreate/CreateVEOs.java:868-875 | the empty string, a lone sign, surrounding blanks and 2147483648 are rejected; "+7" and "-0" are accepted |
| ControlLine.DropTrailingEmpty | src/VEOCreate/CreateVEOs.java:683 | `split` drops exactly the trailing run of empty fields and keeps the rest in order |
| ControlLine.SplitJoinRoundTrip | src/VEOCreate/CreateVEOs.java:683 | splitting tab-free fields joined with tabs, whose last field is non-empty, returns those fields |
| ControlLine.BlankLineIffAllTabs | src/VEOCreate/CreateVEOs.java:683-686 | a line is skipped as blank exactly when it is empty or all tabs |
| ControlLine.DecodeEncodeRoundTrip | src/VEOCreate/CreateVEOs.java:689-691 | replacing `<tab>` by a tab undoes writing each tab as `<tab>`, for text without a `<tab>` |
| ControlLine.DecodeLeavesNoMarker | src/VEOCreate/CreateVEOs.java:689-691 | after the left-to-right replacement no `<tab>` is left in a token |
| ControlLine.Tokenise | src/VEOCreate/CreateVEOs.java:683-691 | one token per field kept by `split`, and no token contains `<tab>` |
| ControlLine.TokeniseWriteLine | src/VEOCreate/CreateVEOs.java:683-691 | tokenising a line written from `<tab>`-free tokens returns those tokens |
| ControlLine.FirstSeparator | src/VEOCreate/CreateVEOs.java:1333-1342 | the index of the first `$$` token; no token before it is a separator |
| ControlLine.SplitAtSeparator | src/VEOCreate/CreateVEOs.java:1333-1342 | the `E` loop collects as descriptions the tokens before the first trimmed `$$`, and as errors the tokens after it with every later `$$` dropped |
| ControlLine.SplitLosesOnlySeparators | src/VEOCreate/CreateVEOs.java:1333-1342 | descriptions followed by errors are the tokens with every separator removed |
| FilePaths.ParsePath | src/VEOCreate/CreateVEOs.java:1493-1497 | `Paths.get` fails exactly on a NUL character; a path is absolute iff it starts with `/`; its names are non-empty and contain no `/` |
| FilePaths.ParsePathString | src/VEOCreate/CreateVEOs.java:1493-1497 | parsing the string form of a well-formed path returns that path |
| FilePaths.Resolve | src/VEOCreate/CreateVEOs.java:1501-1503 | `resolve` returns an absolute path unchanged and appends a relative one to the base |
| FilePaths.RealFile | src/VEOCreate/CreateVEOs.java:1490-1510 | `getRealFile` fails on an invalid reference. Otherwise it asks `toRealPath` about the reference itself if it is absolute or its first name is `.`, and about it resolved against the control file's directory if not |
| FilePaths.TwoNameReference | src/VEOCreate/CreateVEOs.java:1501 | a relative reference `a/b` stays relative to the working directory exactly when its first name is `.`; any other first name, `.hidden` and `..` included, is resolved against the control file's directory, because `startsWith` compares whole names |
| Builder.Perform | src/VEOCreate/CreateVEOs.java:823-835 | a `try` block issues its calls in order and stops at the first that throws; every earlier call returned; each reply is the oracle's for that position in the trace |
| Builder.PerformIssuesPrefix | src/VEOCreate/CreateVEOs.java:823-835 | the calls issued are a prefix of the block's calls |
| Builder.PerformCompletesIff | src/VEOCreate/CreateVEOs.java:823-835 | a block completes exactly when every one of its steps succeeds |
| Builder.PerformLeadingCalls | src/VEOCreate/CreateVEOs.java:823-835 | when every local step of a block throws, the calls issued are the block's first steps, position for position, and a block that completes had no local step |
| Builder.PerformCallsOnly | src/VEOCreate/CreateVEOs.java:754-762 | a block of calls only issues all of them and completes exactly when each succeeds; otherwise it issues a non-empty prefix whose last call threw |
| Builder.PerformCompleteIssuesAll | src/VEOCreate/CreateVEOs.java:823-835 | a completed block has issued all of its calls |
| Builder.PerformAppend | src/VEOCreate/CreateVEOs.java:1409-1440 | running two blocks in sequence is running the first and, unless it threw, the second from where the first stopped |
| Builder.SignCalls | src/VEOCreate/CreateVEOs.java:1523-1529 | `sign` makes one `sign(user, hashAlg)` call per signer, in list order |
| Builder.FinishCalls | src/VEOCreate/CreateVEOs.java:754-756 | finishing a VEO is `finishFiles`, then the sign calls, then `finalise(false)` |
| Builder.TrackAppend | src/VEOCreate/CreateVEOs.java:654-1477 | the open/closed VEO protocol of a trace splits over concatenation |
| Builder.FinishTrack | src/VEOCreate/CreateVEOs.java:752-765 | a finishing block that completes leaves no VEO open; one that throws leaves the VEO open, to be abandoned |
| Builder.CreateTrack | src/VEOCreate/CreateVEOs.java:784-786 | a creation block opens a VEO exactly when the constructor returns |
| Builder.AbandonedNeverFinalised | src/VEOCreate/CreateVEOs.java:1464-1473 | in a trace that keeps the protocol, an abandoned VEO is never finalised or abandoned again; only a new creation can come first |
| CreateVeos.Initial | src/VEOCreate/CreateVEOs.java:342 | a run starts in `PREAMBLE` with no VEO |
| CreateVeos.Classify | src/VEOCreate/CreateVEOs.java:694-1456 | a keyword is unknown exactly when it is none of the `case` labels |
| CreateVeos.Failed | src/VEOCreate/CreateVEOs.java:1567-1570 | `veoFailed` sets `VEO_FAILED`, keeps the VEO and makes no call |
| CreateVeos.FailAndAbandon | src/VEOCreate/CreateVEOs.java:816-819 | `veoFailed` plus `abandon`: `VEO_FAILED`, no VEO, and the one call is `abandon` |
| CreateVeos.Attempt | src/VEOCreate/CreateVEOs.java:823-835 | a guarded block either keeps the session, or ends in `VEO_FAILED` with `abandon` as its last call; a `VEOFatal` stops the run only after that `abandon`; the block keeps the protocol |
| CreateVeos.HashCommand | src/VEOCreate/CreateVEOs.java:708-717 | HASH continues exactly in `PREAMBLE` with two tokens, and then sets the algorithm; otherwise it throws and changes nothing |
| CreateVeos.PfxCommand | src/VEOCreate/CreateVEOs.java:720-741 | PFX continues exactly in `PREAMBLE` with three tokens. A signer is appended only if the resolved PFX file loads with that password |
| CreateVeos.FinishPlan | src/VEOCreate/CreateVEOs.java:754-756 | the calls of the finishing block are `FinishCalls` |
| CreateVeos.FinishCurrent | src/VEOCreate/CreateVEOs.java:752-765 | with no VEO nothing happens. Otherwise no VEO is left open; it halts or changes state only to `VEO_FAILED`; it keeps the protocol |
| CreateVeos.Creation | src/VEOCreate/CreateVEOs.java:784-797 | the first call is the constructor with the name and hash algorithm. Either the VEO is open and the run continues, or the state is `VEO_FAILED` |
| CreateVeos.BvStart | src/VEOCreate/CreateVEOs.java:767-800 | without a name BV only sets `VEO_FAILED`, with no call; with one, its first call is the constructor for `tokens[1]` with the session's hash algorithm. Afterwards a VEO is open exactly when the state is `VEO_STARTED` |
| CreateVeos.BvCommand | src/VEOCreate/CreateVEOs.java:744-801 | with no signer BV throws without a call. It never crashes, keeps the configuration, and a VEO is open after it exactly when the state is `VEO_STARTED` |
| CreateVeos.FilePieces | src/VEOCreate/CreateVEOs.java:1422-1436 | for each file, `addInformationPiece(null)` and then `addAbsContentFile(file)`, in order |
| CreateVeos.ShorthandPlan | src/VEOCreate/CreateVEOs.java:1418-1439 | the rest of the VEO block never creates, finalises or abandons |
| CreateVeos.ShorthandFill | src/VEOCreate/CreateVEOs.java:1415-1439 | the shorthand crashes, on the out-of-bounds `tokens[2]` or `tokens[3]`, exactly when there are fewer than four tokens and the VEO is still open; otherwise the VEO is kept exactly when the state is `VEO_STARTED` |
| CreateVeos.ShorthandStart | src/VEOCreate/CreateVEOs.java:1389-1452 | without templates or a name the VEO command only sets `VEO_FAILED`, with no call; otherwise its first call is the constructor for `tokens[1]` with the session's hash algorithm; a crash needs two or three tokens and leaves a VEO open |
| CreateVeos.VeoCommand | src/VEOCreate/CreateVEOs.java:1367-1452 | with no signer VEO throws without a call; a crash needs two or three tokens; it keeps the protocol |
| CreateVeos.RegisterPlan | src/VEOCreate/CreateVEOs.java:824-827 | one step per directory: registering its real path, or a local failure when `getRealFile` fails |
| CreateVeos.IoDepth | src/VEOCreate/CreateVEOs.java:862-882 | depth 0 when there is no third token; otherwise a depth exists exactly when the token parses as an int of at least 0, and it is that int |
| CreateVeos.AcCommand | src/VEOCreate/CreateVEOs.java:804-837 | the effect bound shared by the commands on the VEO in progress: AC keeps the configuration, moves only to `VEO_FAILED`, opens no VEO, drops the VEO only in `VEO_FAILED`, throws only without calls, keeps the protocol; `AcRule` states its calls |
| CreateVeos.IoCommand | src/VEOCreate/CreateVEOs.java:840-897 | the same effect bound for IO; `IoDepthRule` states its calls |
| CreateVeos.TemplateCommand | src/VEOCreate/CreateVEOs.java:901-939 | the same effect bound for MP and MPC; `TemplateRule` states its calls |
| CreateVeos.XmlMpCommand | src/VEOCreate/CreateVEOs.java:942-974 | the same effect bound for XML-MP; `XmlMpRule` states its calls |
| CreateVeos.RdfCall | src/VEOCreate/CreateVEOs.java:1000-1013 | the same effect bound for the RDF package call; a malformed URL throws without a call; `RdfMpRule`, `AglsMpRule` and `Anzs5478MpRule` state the call |
| CreateVeos.RdfMpCommand | src/VEOCreate/CreateVEOs.java:977-1014 | the same effect bound for RDF-MP; `RdfMpRule` states its calls |
| CreateVeos.AglsMpCommand | src/VEOCreate/CreateVEOs.java:1017-1049 | the same effect bound for AGLS-MP; `AglsMpRule` states its calls |
| CreateVeos.Anzs5478MpCommand | src/VEOCreate/CreateVEOs.java:1052-1084 | the same effect bound for ANZS5478-MP; `Anzs5478MpRule` states its calls |
| CreateVeos.MeCommand | src/VEOCreate/CreateVEOs.java:1125-1167 | the same effect bound for ME; `MeRule` states its calls |
| CreateVeos.SmeCommand | src/VEOCreate/CreateVEOs.java:1170-1207 | the same effect bound for SME; `SmeRule` states its calls |
| CreateVeos.EmeCommand | src/VEOCreate/CreateVEOs.java:1210-1240 | the same effect bound for EME; `EmeRule` states its calls |
| CreateVeos.IpCommand | src/VEOCreate/CreateVEOs.java:1243-1301 | the same effect bound for IP; `IpLabelRule` states its calls |
| CreateVeos.ContentFileCalls | src/VEOCreate/CreateVEOs.java:1287-1291 | one `addContentFile` per remaining token, in order |
| CreateVeos.EventCommand | src/VEOCreate/CreateVEOs.java:1304-1364 | the same effect bound for E; `EventSplitRule` states its calls |
| CreateVeos.VeoCommandStep | src/VEOCreate/CreateVEOs.java:804-1364 | in `VEO_FAILED` the thirteen VEO commands change nothing and make no call |
| CreateVeos.Step | src/VEOCreate/CreateVEOs.java:694-1456 | every step creates only when no VEO is open, makes other calls only on an open VEO, and leaves one open exactly when the session says so |
| CreateVeos.ProcessLine | src/VEOCreate/CreateVEOs.java:683-686 | a blank line changes nothing |
| CreateVeos.RunLines | src/VEOCreate/CreateVEOs.java:678-1461 | the loop only extends the trace and keeps the protocol |
| CreateVeos.EndOfStream | src/VEOCreate/CreateVEOs.java:1463-1473 | after the loop no VEO is left open, and the trace only grows |
| CreateVeos.BuildVeos | src/VEOCreate/CreateVEOs.java:654-1477 | the whole trace keeps the protocol, and a normal return leaves no VEO open |
| CreateVeosFacts.BlankLinesDoNothing | src/VEOCreate/CreateVEOs.java:683-686 | a line of tabs only, or an empty line, does nothing |
| CreateVeosFacts.KeywordIgnoresCase | src/VEOCreate/CreateVEOs.java:694 | tokens that differ only in the ASCII case of their letters have the same keyword, and a keyword is unchanged by lower-casing the token first |
| CreateVeosFacts.KeywordTrimsBlanks | src/VEOCreate/CreateVEOs.java:694 | for any token, chars at or below U+0020 added before and after it leave its keyword unchanged |
| CreateVeosFacts.EndLineCutsInput | src/VEOCreate/CreateVEOs.java:678 | the loop behaves as if the input ended just before the first `end` line |
| CreateVeosFacts.CommentsAndUnknownCommandsDoNothing | src/VEOCreate/CreateVEOs.java:696-705 | comments and unknown commands change nothing and make no call |
| CreateVeosFacts.VeoFailedSkipsVeoCommands | src/VEOCreate/CreateVEOs.java:806-808 | in `VEO_FAILED` AC, IO, MP, XML-MP, RDF-MP, AGLS-MP, ANZS5478-MP, MPC, ME, SME, EME, IP and E do nothing |
| CreateVeosFacts.VeoCommandWithoutVeoOnlyFails | src/VEOCreate/CreateVEOs.java:809-812 | such a command before the first BV only sets `VEO_FAILED` |
| CreateVeosFacts.ConfigurationOnlyInPreamble | src/VEOCreate/CreateVEOs.java:708-727 | HASH and PFX make no call. They continue exactly in `PREAMBLE` with enough tokens, and otherwise throw with nothing changed |
| CreateVeosFacts.EarlyFailureEndsPreamble | src/VEOCreate/CreateVEOs.java:849 | a VEO command before the first BV leaves the preamble, so a later HASH is fatal |
| CreateVeosFacts.ConfigurationFrozenAfterPreamble | src/VEOCreate/CreateVEOs.java:709-711 | once out of `PREAMBLE`, no step changes the signers or the hash algorithm or returns to `PREAMBLE` |
| CreateVeosFacts.HashSetsAlgorithm | src/VEOCreate/CreateVEOs.java:715 | the next BV creates its VEO with the algorithm HASH named |
| CreateVeosFacts.PfxAddsSigner | src/VEOCreate/CreateVEOs.java:729-735 | PFX appends the signer when the resolved file loads, and otherwise only sets `VEO_FAILED` |
| CreateVeosFacts.NoSignerIsFatal | src/VEOCreate/CreateVEOs.java:747-749 | BV and VEO with no signer throw before any call |
| CreateVeosFacts.FinishCurrentCalls | src/VEOCreate/CreateVEOs.java:752-765 | finishing issues `finishFiles`, `sign` per signer and `finalise(false)` when all succeed. Otherwise it issues a prefix ending in the failed call, followed by `abandon` |
| CreateVeosFacts.StartFinishesCurrentFirst | src/VEOCreate/CreateVEOs.java:752-765 | BV and VEO begin with the finishing calls, and a fatal finish ends the step there |
| CreateVeosFacts.BvStartsAfterRecoverableFinishFailure | src/VEOCreate/CreateVEOs.java:757-785 | after a recoverable finishing failure BV still creates the new VEO |
| CreateVeosFacts.ShorthandStartsAfterRecoverableFinishFailure | src/VEOCreate/CreateVEOs.java:1374-1411 | after a recoverable finishing failure the VEO shorthand, with templates and a name, still creates the new VEO right after the finishing calls |
| CreateVeosFacts.ShorthandNeedsTemplatesAndName | src/VEOCreate/CreateVEOs.java:1389-1401 | with no VEO open, the VEO shorthand without a template directory or without a name only sets `VEO_FAILED`, with no call |
| CreateVeosFacts.OnlyBvAndVeoStart | src/VEOCreate/CreateVEOs.java:800 | only BV and VEO open a VEO or enter `VEO_STARTED` |
| CreateVeosFacts.BvOutcome | src/VEOCreate/CreateVEOs.java:744-801 | with a signer BV neither throws nor crashes. Afterwards a VEO is open exactly in `VEO_STARTED`, and only if a name was given |
| CreateVeosFacts.CreationNeverThrowing | src/VEOCreate/CreateVEOs.java:784-786 | with a builder that never throws, creation makes the constructor and readme calls and opens the VEO |
| CreateVeosFacts.ShortShorthandCrashes | src/VEOCreate/CreateVEOs.java:1415-1418 | the VEO shorthand with two or three tokens crashes |
| CreateVeosFacts.MissingTemplatesKeepVeo | src/VEOCreate/CreateVEOs.java:910-913 | MP and MPC without templates only set `VEO_FAILED` and keep the VEO |
| CreateVeosFacts.SingleCallAttempt | src/VEOCreate/CreateVEOs.java:886-895 | a one-call block makes that call, then `abandon` exactly when it threw; it stops the run exactly on a `VEOFatal` |
| CreateVeosFacts.AttemptSkipsLocalOk | src/VEOCreate/CreateVEOs.java:927 | a `findTemplate` that returns normally leaves the rest of the block as it would run alone |
| CreateVeosFacts.AcRule | src/VEOCreate/CreateVEOs.java:815-836 | AC without a directory fails and abandons. Otherwise its calls register the real paths of the directories in order until one cannot be resolved or a call throws; the VEO is kept only when every directory was registered |
| CreateVeosFacts.TemplateRule | src/VEOCreate/CreateVEOs.java:910-937 | MP and MPC without templates only fail; without a template name they fail and abandon; a template not found abandons with no package call; otherwise one `addMetadataPackage` (MP) or `continueMetadataPackage` (MPC) with the template name and the whole line |
| CreateVeosFacts.TemplateAttempt | src/VEOCreate/CreateVEOs.java:926-937 | the block `findTemplate`, then the package call: a template not found abandons with no call, and a `VEOFatal` there stops the run |
| CreateVeosFacts.XmlMpRule | src/VEOCreate/CreateVEOs.java:953-973 | XML-MP without a semantic id fails and abandons; otherwise one `startXMLMetadataPackage(tokens[1])` |
| CreateVeosFacts.RdfMpRule | src/VEOCreate/CreateVEOs.java:988-1013 | RDF-MP with fewer than three tokens fails and abandons; a malformed URL throws; otherwise one `startRDFMetadataPackage(tokens[1], tokens[3] or null, tokens[2])` |
| CreateVeosFacts.AglsMpRule | src/VEOCreate/CreateVEOs.java:1028-1048 | AGLS-MP without a resource fails and abandons; a malformed URL throws; otherwise one RDF package call with the AGLS semantic id and namespaces |
| CreateVeosFacts.Anzs5478MpRule | src/VEOCreate/CreateVEOs.java:1063-1083 | ANZS5478-MP without a resource fails and abandons; a malformed URL throws; otherwise one RDF package call with the ANZS 5478 semantic id and namespaces |
| CreateVeosFacts.MeRule | src/VEOCreate/CreateVEOs.java:1136-1166 | ME without a tag fails and abandons; otherwise one `addSimpleMetadataElementToMP(tokens[1], tokens[3] or null, tokens[2] or null)` |
| CreateVeosFacts.SmeRule | src/VEOCreate/CreateVEOs.java:1181-1206 | SME without a tag fails and abandons; otherwise one `startComplexMetadataElementInMP(tokens[1], tokens[2] or null)` |
| CreateVeosFacts.EmeRule | src/VEOCreate/CreateVEOs.java:1219-1239 | EME without a tag fails and abandons; otherwise one `endComplexMetadataElementInMP(tokens[1])` |
| CreateVeosFacts.InvalidUrlIsFatal | src/VEOCreate/CreateVEOs.java:1004 | RDF-MP, AGLS-MP and ANZS5478-MP with a malformed URL throw before any call |
| CreateVeosFacts.IoDepthRule | src/VEOCreate/CreateVEOs.java:853-895 | IO without a label or with a bad depth fails and abandons. Otherwise it calls `addInformationObject(trimmed label, depth)` once |
| CreateVeosFacts.IoDepthRoundTrip | src/VEOCreate/CreateVEOs.java:868-882 | a depth written in decimal is read back |
| CreateVeosFacts.IpLabelRule | src/VEOCreate/CreateVEOs.java:1261-1291 | `tokens[1]` is a label exactly when the probe finds no regular file, and a label with no file fails. Otherwise one `addInformationPiece` and one `addContentFile` per remaining token |
| CreateVeosFacts.EventSplitRule | src/VEOCreate/CreateVEOs.java:1319-1354 | E needs five tokens and a description. The event's descriptions come before the first `$$`, and descriptions plus errors are the tokens with every `$$` removed |
| CreateVeosFacts.ShorthandPlanCalls | src/VEOCreate/CreateVEOs.java:1418-1439 | the VEO block's calls are the metadata package, the file pieces and the creation event |
| CreateVeosFacts.ShorthandCalls | src/VEOCreate/CreateVEOs.java:1409-1452 | when nothing throws, the VEO shorthand issues exactly create, readme, IO, package, one piece per file and the creation event, and starts the VEO |
| CreateVeosFacts.StepKeepsConsistent | src/VEOCreate/CreateVEOs.java:694-1456 | a VEO is never open in `PREAMBLE`, and `VEO_STARTED` always has one; every step keeps this |
| CreateVeosFacts.RunLinesKeepsConsistent | src/VEOCreate/CreateVEOs.java:678-1461 | the loop keeps the same invariant |
| CreateVeosFacts.EventStateCheckIsRedundant | src/VEOCreate/CreateVEOs.java:1325-1330 | with a VEO open and not failed, the state is `VEO_STARTED` |
| CreateVeosFacts.AbandonedVeoNeverFinalised | src/VEOCreate/CreateVEOs.java:1464-1473 | in a whole run, an abandoned VEO is never finalised or abandoned again |
| CreateVeosFacts.StoppedRunIsNotFinalised | src/VEOCreate/CreateVEOs.java:760-762 | a run that returned or threw inside the loop skips the end-of-stream finalisation |
| Dom.InElements | src/VEOAnalysis/RepnXML.java:207 | the element list holds exactly the paths of element nodes |
| Dom.ElementsSorted | src/VEOAnalysis/RepnXML.java:207 | the element list is strictly in document order |
| Dom.SortedPositions | src/VEOAnalysis/RepnXML.java:325-327 | in the element list, an earlier position means earlier in document order, and the reverse |
| Dom.IndexOf | src/VEOAnalysis/RepnXML.java:325-327 | the first position of an element in the list |
| Dom.FirstElementFrom | src/VEOAnalysis/RepnXML.java:314-316 | the first element among the children from a position on, all before it non-elements |
| Dom.SiblingElementIsLater | src/VEOAnalysis/RepnXML.java:314-316 | the next element sibling is an element, with the same parent, after the node and all below it |
| Dom.AncestorSiblingElementIsLater | src/VEOAnalysis/RepnXML.java:351-361 | the element the climbing search finds comes after the start node and all below it |
| RepnXml.Fresh | src/VEOAnalysis/RepnXML.java:67-81 | a new representation holds a parser, and has no contents and no errors |
| RepnXml.Parse | src/VEOAnalysis/RepnXML.java:117-210 | a second parse returns false and changes nothing. Otherwise parse succeeds exactly for a file that parses and validates on an instance that still holds its parser. A missing or irregular file, or a schema that does not parse, records exactly one error. Without a parser, a file that gets past those checks fails with a null pointer at `setErrorHandler`. A later failure records its own error after those reported on the way. Every failure records at least one error and leaves no contents. A success keeps the errors reported on the way and sets the cursor to 0 and the contents |
| RepnXml.Abandon | src/VEOAnalysis/RepnXML.java:87-94 | `abandon` clears the contents, the flag and the parser, and keeps the invariant |
| RepnXml.ParseAfterAbandon | src/VEOAnalysis/RepnXML.java:87-144 | after `abandon` no parse succeeds. A file that fails the file or schema checks records its one error. Any other file fails with a null pointer on the dropped parser (line 144) |
| RepnXml.ParseOnce | src/VEOAnalysis/RepnXML.java:87-120 | after a successful parse a second is refused and changes nothing. After a later `abandon`, no parse succeeds again |
| RepnXml.GotoRootElement | src/VEOAnalysis/RepnXML.java:258-261 | only the cursor changes, to 0 |
| RepnXml.GotoNextElement | src/VEOAnalysis/RepnXML.java:266-269 | the cursor goes up by one, wrapping from the largest int to the smallest |
| RepnXml.AtEnd | src/VEOAnalysis/RepnXML.java:287-293 | at end exactly when there is no element list or the cursor is at or past its length |
| RepnXml.CursorWalk | src/VEOAnalysis/RepnXML.java:258-293 | after the root and k steps, the index is k and at end exactly when k reaches the length |
| RepnXml.NextWrapsAround | src/VEOAnalysis/RepnXML.java:266-269 | one step past the largest int gives a negative cursor that is not at end |
| RepnXml.ScanForward | src/VEOAnalysis/RepnXML.java:323-326 | the scan stops after the start, at the target or at the end, and passes no earlier copy of the target |
| RepnXml.NextElementSibling | src/VEOAnalysis/RepnXML.java:313-316 | stepping through the following siblings until one is an element lands on the first element among the siblings after the current one, the same node the first-element search over the parent's children finds; none if there is no such element |
| RepnXml.GotoSibling | src/VEOAnalysis/RepnXML.java:306-330 | no current element is a null-pointer failure. With no next element sibling it returns false and the cursor stays. Otherwise it returns true with the cursor at that sibling's index, which is greater |
| RepnXml.GotoParentSibling | src/VEOAnalysis/RepnXML.java:343-369 | no current element is a null-pointer failure. If no ancestor from the parent up has a following element, the cursor goes to the end and it returns false. Otherwise the cursor lands on that element; the result is `!atEnd()` |
| RepnXml.WholeTextIsRun | src/VEOAnalysis/RepnXML.java:462-464 | `getWholeText` from the first child is the text of the run of text and CDATA children starting there |
| RepnXml.GetTextValue | src/VEOAnalysis/RepnXML.java:452-469 | no current element is a null-pointer failure. There is text exactly when the first child is a text node, and it is the trimmed whole text |
| RepnXml.TextValueIsTrimmed | src/VEOAnalysis/RepnXML.java:462-464 | the value returned is already trimmed |
| DomRender.Spaces | src/VEOAnalysis/RepnXML.java:500-502 | the indent is `depth` spaces, none for a negative depth |
| DomRender.PrettyPrintNode | src/VEOAnalysis/RepnXML.java:488-546 | a null node gives "", and a text or attribute node with a blank or null value gives "" |
| DomRender.PrettyPrintIsPreorder | src/VEOAnalysis/RepnXML.java:488-546 | `prettyPrintNode` is the lines of the node and then, under an element, of its descendants in document order, each one level deeper than its parent |
| DomRender.PrettyEntriesIndent | src/VEOAnalysis/RepnXML.java:506-510 | only nodes are listed, and everything after the node itself is indented further |
| DomRender.DumpNode | src/VEOAnalysis/RepnXML.java:567-627 | a null node gives "" |
| DomRender.DumpIsPreorder | src/VEOAnalysis/RepnXML.java:567-627 | `dumpNode` is the line of the node, then one line per attribute of an element, then the lines of every child, in document order |
| DomRender.DumpEntriesIndent | src/VEOAnalysis/RepnXML.java:597-625 | attributes and children are indented further than their node, and an element's attributes come first, in order |
| DomRender.AttributeEntriesAsLines | src/VEOAnalysis/RepnXML.java:597-618 | the attribute loop writes one line per attribute, in map order |

## Left out

- Command-line handling (`configure`, `checkFile`, the constructor), the opening and decoding of the control file, logging, console output and timestamps: these are I/O. The model starts from the file's lines.
- `CreateVEO`, `Templates`, `PFXUser` and `VERSDate` are not part of this model. Their effects are the replies of the call trace, and the PFX and template oracles.
- The filesystem and `new URL(...)` are oracles: `toRealPath`, the IP probe and URL well-formedness.
- `String.toLowerCase` is modelled for ASCII letters only, and the locale is not modelled.
- JavaText.ParseInt accepts ASCII digits only; `Integer.parseInt` also accepts other Unicode decimal digits.
- `Paths.get` is modelled for POSIX paths, and only a NUL character makes it fail. Windows drive letters and separators are not modelled.
- The `ArrayIndexOutOfBoundsException` of the VEO shorthand with two or three tokens is the `Crash` outcome. What the caller does with it is not modelled.
- `RepnXML.parse` keeps only its guards, flags and error count. XML parsing, schema parsing and validation, the SAX callbacks and the version and encoding warnings are one oracle, `Source`, which also says how many errors were reported without stopping the parse.
- The root element's `xmlns:vers` check is part of the `Source` oracle: its error is one of the reported errors, and its warning is not modelled, as warnings are not counted.
- A failure after the document was read leaves `doc` set in the source. The model keeps no document without contents, because nothing reads it then.
- `AnalysisBase`, the superclass of `RepnXML`, is not part of this model. Errors are a count.
- RepnXml.Abandon: the effect of `super.abandon()` is not modelled. The model assumes it keeps the recorded errors.
- RepnXml.Consistent bounds the element list by the largest int. The source's `NodeList` has the same bound.
- RepnXml.WholeTextIsRun: `getWholeText` also crosses entity-reference nodes. The model treats those as ending the run.
- Entity-reference nodes are not expanded. DOM nodes are an immutable tree without identity beyond their path.
- `getCurrentElement`, `checkElement`, `getAttribute`, `setAttribute`, `toString` and `dumpDOM` are outside the modelled core.
