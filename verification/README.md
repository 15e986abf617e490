# A verified model of the file-scanning service

The service takes untrusted files from a queue, scans them (archives recursively), gives a verdict, and
rebuilds Word documents and ZIP archives without their active content. This project models the parts of it
where the order of events, nesting, or shared state decides the outcome, and proves what the service
promises about them. `dafny verify dfyconfig.toml` checks everything.

Code that computes is modelled by functions, code that works step by step by methods with loops, and objects
that are updated in place by classes whose methods are proved to compute a specification function; the
properties are lemmas about those functions. Protocols between processes are step systems, and a property of
a protocol is a statement about every run, that is, about every sequence of steps.

| file | what it is about |
|---|---|
| `Fields.dfy`, `FieldProofs.dfy`, `FieldTheorems.dfy` | fields of a Word part: the checker's scan, the sanitizer's strip, and a simulation between the two stack machines when a run holds one mark |
| `FieldRuns.dfy`, `FieldRunTheorems.dfy` | runs with any number of marks: a part against the one that has a run for each mark, and the theorems about stripping |
| `FieldTrees.dfy`, `FieldTreeStrip.dfy` | parts written as trees of fields: what the checker reports of a tree and what the sanitizer makes of it, without any stack |
| `FieldClasses.dfy`, `FieldReports.dfy` | the name of an instruction, said of its characters, and its class; which fields are reported and which are left |
| `Xml.dfy`, `XmlParse.dfy`, `XmlProofs.dfy`, `XmlRoundTrip.dfy`, `XmlDocuments.dfy` | writing a part with a growing table of namespace prefixes, reading it back, and exactly when the two undo each other; what is made of any document, said of it as a tree |
| `Archive.dfy` | the inventory of a ZIP archive and extraction, under one budget for a whole tree |
| `Pipeline.dfy`, `PipelineProofs.dfy`, `PipelineReports.dfy`, `PipelineRun.dfy` | stages on a file and on everything in it: specification, theorems about coverage and bounds and about what reaches the verdict, and the code on objects updated in place |
| `Scoring.dfy` | findings to score, score to verdict, and the split of facts over two cache levels |
| `WorkQueue.dfy`, `WorkQueueTheorems.dfy`, `WorkQueueOrigins.dfy` | delivery, attempts, dead letters and acknowledgements, with workers that die at any step; and where each status and letter comes from |
| `Reclaim.dfy` | the stream with its consumer group, and the sweep that takes over the jobs of dead workers |
| `ResultChannel.dfy`, `DeadLetters.dfy` | waiting for a result; reading dead letters page by page |
| `RateLimit.dfy`, `Concurrency.dfy` | the two limiters of the gateway |
| `DocxClean.dfy`, `DocxRebuild.dfy` | cleaning a part in place, and rebuilding the package from an allow-list |
| `DocxLinks.dfy`, `DocxNames.dfy`, `DocxUnits.dfy` | which links may stay, said of their characters; names of parts and targets; what a cleaning does, said of the elements above |
| `ZipRebuild.dfy`, `ZipEntries.dfy` | rebuilding a ZIP archive: what is carried over and under which names; when it succeeds and what is noted |
| `Common.dfy` | declarations that several modules share |
| `Text.dfy` | strings, numerals, and the search for a name that nobody has |

What the outside world answers is a parameter: files and their contents, what a stage or an engine says, the
clock, which characters are white space or how they are lower-cased, and which file names are on an
allow-list. Sizes and other Python integers are unbounded there and here.

## Where the code and its promises differ

- Two attempts at one scan may overlap: an entry is handed out before its first heartbeat. Then the journal
  does not stop the second death of a worker on the same file (`WorkQueueTheorems.OverlappingAttemptsDieTwice`);
  without overlap it does (`WorkQueueTheorems.AtMostOneHardDeath`). Nor does it when its record or the status of
  the scan expires, or when a worker dies after the record of a scan it gives up is removed and before anything
  else is stored (`WorkQueueTheorems.ExpiredRecordDiesTwice`, `ExpiredStatusDiesTwice`, `DeathInBetweenDiesTwice`).
- The concurrency limiter relies on times that give a total order. With equal times the order of names decides
  and a slot can be given twice (`Concurrency.EqualTimesOverrun`).
- A run that holds both a fragment of an instruction and the start of a nested field goes as a whole, and a
  safe field may lose its name (`FieldRunTheorems.ApartIsNeeded`). The service then depends on its check of the
  result. As long as no deleted run holds anything of a field that stays, what is left is as it should be,
  however many marks share a run (`FieldRunTheorems.ScanWhenApart`).
- The checker reads all text of an instruction element, the sanitizer only the text before the first element
  inside it. A field may be safe for the sanitizer, stay, and be reported by the checker
  (`FieldTheorems.WholeIsNeeded`, for instance `PAGE` with `X` behind an element:
  `FieldTheorems.PageWithLetter`; or an `INCLUDETEXT` that reads `INDEX`: `FieldReports.IndexHidesInclude`).
  `FieldRunTheorems.SafeExactly` says when the checker reports only safe fields.
- The rebuild of a package looks at the children of the root of a file of relationships. A bad external
  relationship that is the root itself, or lies deeper, passes it and is found by the check of the result
  (`DocxRebuild.CheckFindsExactly`, an exact condition on the file read; `DocxRebuild.RootRelationshipIsMissed`
  and `DocxRebuild.NestedRelationshipIsMissed`).
- A part does not come back unchanged from writing and reading if it has an attribute in its default namespace,
  an unqualified element below a default namespace, a carriage return in a text, or a name whose namespace has
  a closing brace, which the serializer takes apart in the wrong place (`XmlRoundTrip.RoundTrip`, an exact
  condition; `XmlRoundTrip.BraceIsRead`). A part in which the default namespace was undeclared cannot be
  written at all.
- A safe file name can still look like a drive path: `C:x` stays as it is (`ZipRebuild.DriveOfThree`).
  `ZipRebuild.SafeNameEscapesExactly` says for which names given that happens.
- The extension of a rebuilt member is cut off by the length of its lower case, which for a few characters is
  longer (`ZipEntries.LowerCaseDecidesTheCut`, an exact condition).

## Model

| member | source | states |
|---|---|---|
| Fields.ScanFields | services/worker/worker_app/ooxml.py:411-475 | The scanner's loop over a part reports the classes of all fields: closed ones in the order they close, then the unclosed ones. |
| Fields.StripFields | services/worker/worker_app/ooxml.py:502-577 | The sanitizer's loops over a part, with the regions of open fields updated in place, give exactly the stripped part and the number of removed fields. |
| Fields.StripRun | services/worker/worker_app/ooxml.py:525-560 | Inside one run, the marks and fragments push, separate and pop fields, and note stray fragments, as the stack machine prescribes. |
| FieldProofs.DeletedExactly | services/worker/worker_app/ooxml.py:562-571 | A run is deleted if and only if it belongs to the code of a removed field: between its start and its separator while it is open, or holding its start, separator or end. |
| FieldProofs.ShapesAgree | services/worker/worker_app/ooxml.py:411-577 | On any part, checker and sanitizer have as many fields open, separated alike; one with an instruction for the sanitizer has one for the checker. |
| FieldProofs.NestedIsRemoved | services/worker/worker_app/ooxml.py:390-408 | A field whose instruction starts with another field is never kept; nor is any, when safe fields go too. |
| FieldProofs.EndSurvivesExactly | services/worker/worker_app/ooxml.py:543-550 | The run that ends a field survives if and only if the field is kept and lies in the code of no removed field. |
| FieldProofs.Simulation | services/worker/worker_app/ooxml.py:411-577 | With one mark per run, after any number of items: the checker reading the stripped part has reported and has open exactly the fields it reports and has open on the original, restricted to those that stay, with all of their instructions. |
| FieldProofs.ScanAfterStrip | services/worker/worker_app/ooxml.py:502-577 | With one mark per run, scanning a stripped part reports exactly the fields that stay, in order, with the instructions as the checker reads them, none left open; and nothing at all when safe fields are removed too; for any nesting, missing separators, unclosed fields, stray fragments, and text behind elements inside instructions. |
| FieldTheorems.MachinesAgree | services/worker/worker_app/ooxml.py:411-475 | Whatever marks share a run, if no instruction element has text behind an element inside it: checker and sanitizer have the same fields open with the same instructions; if all reported fields are kept, nothing is doomed. |
| FieldRuns.WalkIsSame | services/worker/worker_app/ooxml.py:525-560 | On every part, the sanitizer has the same fields open and removed as on the part with a run for each mark, and the regions list the same runs. |
| FieldRuns.DeletedByAtom | services/worker/worker_app/ooxml.py:562-571 | On every part, a run is deleted if and only if one of its marks or texts, taken for itself, belongs to the code of a removed field. |
| FieldRunTheorems.ScanWhenApart | services/worker/worker_app/ooxml.py:502-577 | If no deleted run holds anything of a field that stays, scanning a stripped part reports exactly the fields that stay, in order, with the instructions as the checker reads them, none left open, however many marks share a run. |
| FieldRunTheorems.OneMarkIsApart | services/worker/worker_app/ooxml.py:525-571 | With one mark per run no deleted run holds anything of a field that stays. |
| FieldRunTheorems.AllGoneIsApart | services/worker/worker_app/ooxml.py:525-571 | Nor does any, on every part, when safe fields are removed too. |
| FieldRunTheorems.CompactIsApart | services/worker/worker_app/ooxml.py:525-571 | A field written in one run goes as a whole or stays as a whole. |
| FieldRunTheorems.ApartIsNeeded | services/worker/worker_app/ooxml.py:525-571 | For every safe instruction there is a part in which a deleted run holds something of a field that stays, and the checker reports a field that is not safe. |
| FieldRunTheorems.SafeExactly | services/worker/worker_app/ooxml.py:461-463 | If no deleted run holds anything of a field that stays, the checker reports only safe fields of a stripped part if and only if each field that stays is safe as the checker reads it. |
| FieldRunTheorems.OnlySafeIsLeft | services/worker/worker_app/ooxml.py:502-577 | If, besides, no instruction has text behind an element inside it, the checker reports only safe fields of a stripped part. |
| FieldTheorems.ScanMissesNothing | services/worker/worker_app/ooxml.py:411-475 | The scanner reports as many fields as begin in the part, whatever is missing or left open. |
| FieldRunTheorems.StripIsIdempotent | services/worker/worker_app/ooxml.py:502-577 | If no deleted run holds anything of a field that stays, a second pass removes nothing, returns 0 and changes nothing. |
| FieldRunTheorems.TextIsConserved | services/worker/worker_app/ooxml.py:505-512 | For every part: the texts left are, in order, all texts but those of runs with something of the code of a removed field. |
| FieldRunTheorems.NoFieldIsLeft | services/worker/worker_app/ooxml.py:502-577 | For every part: without keeping safe fields, no complex or simple field begins in what is left, and no fragment lies outside a field. |
| FieldTheorems.OneMarkIsNeeded | services/worker/worker_app/ooxml.py:525-560 | For every safe instruction there is a part, with two marks in one run, that strips to a field that is not safe. |
| FieldTheorems.BareStrip | services/worker/worker_app/ooxml.py:541-549 | Text behind an element inside an instruction makes no difference to what the sanitizer removes. |
| FieldTheorems.WholeIsNeeded | services/worker/worker_app/ooxml.py:541-549 | For every safe instruction that is not safe with the text behind an element inside it, there is a part with one mark per run that stripping leaves as it is and the checker reports. |
| FieldTheorems.PageWithLetter | services/worker/worker_app/ooxml.py:390-408 | There are such instructions: `PAGE` is safe, and with an `X` behind it is not. |
| FieldClasses.NameExactly | services/worker/worker_app/ooxml.py:368-387 | The name taken from an instruction is the one that stands there: behind white space and quotes, a word of letters of either case that no letter follows; and none is taken when none stands there. |
| FieldClasses.ClassExactly | services/worker/worker_app/ooxml.py:390-408 | Which class an instruction has: obfuscated if and only if it begins with a field; else `dde` for the names DDE and DDEAUTO, `include` for INCLUDETEXT, INCLUDEPICTURE, INCLUDE, LINK and IMPORT, `safe` for a name of the safe list that is none of these, and `other` otherwise. |
| FieldTrees.ScanOfTree | services/worker/worker_app/ooxml.py:411-475 | Of a part that is a tree of fields, however its marks lie in runs, the checker reports exactly the fields of the tree, each with the whole instruction written in its code, and whether a field stands before anything else there. |
| FieldTrees.FieldIsReported | services/worker/worker_app/ooxml.py:411-475 | A field anywhere in any part, closed or left open and whatever stands around it, is reported with the instruction written in its code. |
| FieldTreeStrip.StripOfTree | services/worker/worker_app/ooxml.py:502-577 | What the sanitizer makes of a part that is a tree of fields: the tree in which each field not kept has given way to its result, with all that is in its code, and fragments outside any code have left their runs empty. |
| FieldTreeStrip.CountOfTree | services/worker/worker_app/ooxml.py:562-573 | The number it answers is the number of fields of the tree that are not kept, wherever they stand. |
| FieldReports.HarmIsReported | services/worker/worker_app/ooxml.py:411-475 | A field anywhere in any part that names DDE or DDEAUTO is reported as such, one that names an include likewise, and one that begins with a field as obfuscated. |
| FieldReports.SimpleHarmIsReported | services/worker/worker_app/ooxml.py:453-454 | So are simple fields, by what their attribute names. |
| FieldReports.NoHarmIsLeft | services/worker/worker_app/ooxml.py:502-577 | If no deleted run holds anything of a field that stays and instructions are whole: no field is left in a stripped part, closed or open, that names DDE, DDEAUTO, INCLUDETEXT, INCLUDEPICTURE, INCLUDE, LINK or IMPORT, or begins with a field. |
| FieldReports.NoSimpleHarmIsLeft | services/worker/worker_app/ooxml.py:566-573 | In every stripped part the simple fields left have a name of the safe list. |
| FieldReports.IndexHidesInclude | services/worker/worker_app/ooxml.py:541-549 | Whole instructions are needed: a field whose fragments read INDEX up to the elements inside them, and INCLUDETEXT with what follows, is kept. |
| FieldReports.RemovedAreReported | services/worker/worker_app/ooxml.py:562-573 | The number of fields removed is the number of closed fields the checker reports on the part given that are not safe, and of those left open; with whole instructions, or when safe fields go too. |
| FieldReports.AllAreCounted | services/worker/worker_app/ooxml.py:562-573 | For every part: when safe fields go too, the number answered is the number of fields that begin in it. |
| Text.DecimalInjective | services/worker/worker_app/ooxml.py:148-155 | Different numbers have different numerals, so the names tried in turn differ. |
| Text.AllTakenBound | services/worker/worker_app/cdr/archive.py:65-72 | Pigeonhole: if the first n different names are all taken, n is at most the number of names taken. |
| Text.FindFree | services/worker/worker_app/ooxml.py:148-155 | The counting search ends, and returns the first name that is not taken. |
| Xml.AssignKeepsInjective | services/worker/worker_app/ooxml.py:148-155 | A new namespace gets a prefix that nobody has and that is neither empty nor reserved; the prefixes given stay; the table stays injective. |
| Xml.PrefixTable.constructor | services/worker/worker_app/ooxml.py:144-146 | The table starts with the prefixes of the part and the reserved one. |
| Xml.PrefixTable.PrefixFor | services/worker/worker_app/ooxml.py:148-155 | The loop over candidate prefixes, with the set of used ones kept up to date, extends the table as specified. |
| Xml.PrefixTable.Qualify | services/worker/worker_app/ooxml.py:157-162 | A name in braces is taken apart at the first closing brace; it gets its prefix, and its namespace an entry in the table if it had none; any other name stays as it is. |
| Xml.ClarkExactly | services/worker/worker_app/ooxml.py:133-162 | A name put together from a namespace and a local name is taken apart in the same place if and only if the namespace has no closing brace; otherwise what is taken for the local name is none. |
| Xml.PrintKeepsInjective | services/worker/worker_app/ooxml.py:138-198 | However many namespaces a tree brings in, the table stays injective to the end. |
| Xml.PrintAll | services/worker/worker_app/ooxml.py:164-186 | The loop over an explicit stack prints exactly what recursive printing prints, and leaves the same table. |
| Xml.SortDeclarations | services/worker/worker_app/ooxml.py:188-194 | The declarations come out sorted by prefix, each namespace once. |
| Xml.Serialize | services/worker/worker_app/ooxml.py:138-198 | The tokens of a part: the printed tree with all declarations on its root; nothing for a part whose table holds an undeclared default namespace. |
| XmlParse.Parse | services/worker/worker_app/ooxml.py:72-130 | The handlers driven over the tokens build the specified tree and table, or stop at the first error. |
| XmlParse.ParsedIsPlausible | services/worker/worker_app/ooxml.py:87-91 | Whatever is parsed, no two namespaces share a prefix and none but its own has the reserved one. |
| XmlDocuments.ReadsExactly | services/worker/worker_app/ooxml.py:72-130 | Any document, as a tree with declarations anywhere, is read if and only if its names are declared, no attribute comes twice, it keeps within the limits, and only white space stands around its root; then each name has the namespace that the nearest declaration above gives it, texts and tails stand where they stood, and the table holds the declarations in order. |
| XmlDocuments.NotedExactly | services/worker/worker_app/ooxml.py:87-91 | A namespace is noted with the prefix of its first declaration that no other namespace had before; later ones make no difference. |
| XmlProofs.PrintIsRender | services/worker/worker_app/ooxml.py:148-186 | Printing with the growing table gives the tokens that printing with the final table gives. |
| XmlProofs.ElemIsRead | services/worker/worker_app/ooxml.py:93-120 | Reading the tokens of an element inside any state within the limits appends that element, with names and line ends as a reader takes them, or fails exactly when a limit, a repeated attribute or something that is no name forbids it. |
| XmlRoundTrip.RoundTrip | services/worker/worker_app/ooxml.py:72-198 | For every tree with distinct attributes and every plausible table: reading what was written gives the same tree and table if and only if no default namespace was undeclared, the tree is within 5,000,000 elements and 256 levels, every name is taken apart where it was put together, no attribute is in the default namespace, no unqualified element is in a part that has one, and no text has a carriage return. |
| XmlRoundTrip.ReadWriteRead | services/worker/worker_app/ooxml.py:72-198 | For a part that was itself read, the condition on names and texts alone decides: limits and prefixes hold already; and all its names were put together from a namespace and a local name. |
| XmlRoundTrip.BraceIsLost | services/worker/worker_app/ooxml.py:157-162 | Whatever else holds of a part, a closing brace in the namespace of its root keeps it from coming back. |
| XmlRoundTrip.BraceIsRead | services/worker/worker_app/ooxml.py:157-162 | Such a part can be read: an empty root in the namespace `u}v`. |
| XmlRoundTrip.TextKeptExactly | services/worker/worker_app/ooxml.py:110-118 | A text is read as it was written if and only if it has no carriage return. |
| XmlRoundTrip.LineEndsBegin | services/worker/worker_app/ooxml.py:110-118 | A carriage return, alone or with a line feed behind it, is read as a line feed, any other character as it is. |
| XmlRoundTrip.LineEndsExactly | services/worker/worker_app/ooxml.py:110-118 | A text is read part by part, so that holds wherever they stand, unless an end of a line is cut in two. |
| XmlRoundTrip.WritesTheSame | services/worker/worker_app/ooxml.py:138-198 | Writing a part that survived gives the same tokens again: prefixes do not drift. |
| Archive.UnpackBudget.constructor | services/worker/worker_app/archive.py:73-96 | A budget starts with nothing declared, unpacked or selected. |
| Archive.SelectMembers | services/worker/worker_app/archive.py:263-285 | The loop that selects members under room and entry limits yields the specified selection and reasons, and counts entries on the shared budget. |
| Archive.Inspect | services/worker/worker_app/archive.py:221-287 | The inventory and the budget after it are as specified: problems, encryption, bomb, reasons for incompleteness, members. |
| Archive.SelectIsComplete | services/worker/worker_app/archive.py:263-285 | If no reason for incompleteness was given, every file that is not encrypted, a link, metadata or empty is a member. |
| Archive.SelectNamesFiles | services/worker/worker_app/archive.py:263-285 | Each member names the file it was made from, and is fit for scanning. |
| Archive.Extract | services/worker/worker_app/archive.py:290-315 | The loop over chunks returns the specified outcome and bytes, and charges all bytes read to the budget. |
| Archive.ExtractedExactly | services/worker/worker_app/archive.py:296-315 | Extraction succeeds if and only if the stream ends well, is no longer than declared, and fits what is left of the budget. |
| Archive.PulledExactly | services/worker/worker_app/archive.py:296-315 | What an extraction answers, counts and writes: all of a stream that fits; of one that does not, the chunks that fit are written and the next is counted too; one that fits and breaks off is unreadable. |
| Archive.ProblemsExactly | services/worker/worker_app/archive.py:229-249 | The codes reported of an archive are exactly those some file deserves: a name that leads out, a link, a program, encryption; and that of a bomb. |
| Archive.EscapesExactly | services/worker/worker_app/archive.py:197-203 | A name leads out if and only if it begins with a slash or backslash, has a colon in the second place, or has a component "..", whichever way its slashes lean. |
| Archive.MetadataExactly | services/worker/worker_app/archive.py:205-219 | The archiver's own files: at most a mebibyte, called .DS_Store, or under __MACOSX with a name that begins with "._". |
| Archive.FilesCount | services/worker/worker_app/archive.py:234 | Of the entries exactly those that are no directories are files, in their order. |
| Archive.DeclaredCounts | services/worker/worker_app/archive.py:250-251 | Every file counts with the size it declares, whatever its place. |
| Archive.SelectedExactly | services/worker/worker_app/archive.py:263-285 | A file is selected if and only if it is not encrypted, no link, not the archiver's own and not empty, can be unpacked, is within the limit for one file, and within what the files selected before it leave of bytes and entries. |
| Archive.IncompleteExactly | services/worker/worker_app/archive.py:263-285 | A reason is given if and only if some file that needs scanning is not selected. |
| Archive.ReasonsExactly | services/worker/worker_app/archive.py:263-285 | Which reasons are given: those of the files that need scanning and cannot be read, are too large, or find no room among the entries; the first of the last kind ends the selection, and its reason is the last. |
| Archive.DecidedExactly | services/worker/worker_app/archive.py:249-262 | A bomb declares, with all that was declared before, more than 256 MiB and at least a hundred times the file given; otherwise too much volume and too great a depth are told, and nothing is selected too deep. |
| Archive.InspectStaysWithin | services/worker/worker_app/archive.py:249-287 | An inventory keeps the ledger within its bounds. |
| Archive.ExtractStaysWithin | services/worker/worker_app/archive.py:290-315 | An extraction keeps the ledger within its bounds and leaves what was declared and selected alone. |
| Archive.OneBudgetBoundsAll | services/worker/worker_app/archive.py:221-315 | Over any sequence of inventories and extractions on one budget: members selected declare at most 256 MiB and number at most 500, at most 256 MiB are written out, and the bytes counted go past the limit by at most one chunk for each refused extraction. |
| Scoring.ScoreMonotone | packages/vscommon/scoring.py:47-61 | Findings that are matched, code by code, by ones that weigh no less never score less. |
| Scoring.ScoreIsSetLike | packages/vscommon/scoring.py:47-61 | Order and repetition of findings do not change the score. |
| Scoring.OneFindingCounts | packages/vscommon/scoring.py:47-61 | The score is at least that of any one finding, up to 100. |
| Scoring.OneFamilyScores | packages/vscommon/scoring.py:47-61 | Findings of one family score their strongest, up to 100. |
| Scoring.FamiliesAddUp | packages/vscommon/scoring.py:47-61 | Findings of different families add up, up to 100. |
| Scoring.ScoreOf | packages/vscommon/scoring.py:47-61 | The dictionary loop with its shortcut at 100 computes the sum of the family maxima, cut at 100. |
| Scoring.ComputeVerdict | packages/vscommon/scoring.py:69-92 | Verdict and reported score are those of the decision order: block, encrypted, unsupported, suspicious, failed stages, clean. |
| Scoring.CleanExactly | packages/vscommon/scoring.py:64-114 | A file is called clean if and only if its score is below both thresholds, it was readable, and every essential stage passed or the tenant fails open. |
| Scoring.VerdictExactly | packages/vscommon/scoring.py:64-114 | When each verdict is given: malicious at the block threshold, or when essential stages failed and the tenant fails closed; below it encrypted before unsupported before suspicious; and the score reported, raised to the suspicious threshold for what is not clean. |
| Scoring.UncleanIsReportedAboveThreshold | packages/vscommon/scoring.py:69-92 | A verdict is other than clean if and only if the reported score reaches the weaker threshold. |
| Scoring.MergeScore | packages/vscommon/models.py:290-300 | Merging facts drops repeated codes without changing the score of all findings together. |
| Scoring.HalvesExactly | services/worker/worker_app/main.py:726-768 | The antivirus half of the cache holds the findings of that stage, the structural half all others but those two that only compare the file with the request. |
| Scoring.MergedExactly | packages/vscommon/models.py:290-300 | Merging keeps all findings of the first half and those of the second with other codes, all failed stages, and what could not be read. |
| Scoring.CacheAgreesWithFullScan | services/worker/worker_app/main.py:726-768 | Facts split into a structural and an antivirus half and merged back give every policy the verdict and score of the facts without request-derived findings. |
| Scoring.RefreshAgreesWithUnion | packages/vscommon/cache.py:109-130 | A cached structural half with a renewed antivirus half is judged like all their findings together. |
| Scoring.SplitNeedsOneWeightTable | packages/vscommon/models.py:290-300 | With two weights for one code the split changes the score: the precondition of the cache is needed. |
| PipelineRun.ScanContext.AddFinding | services/worker/worker_app/stages/base.py:54-81 | A finding is added to the context with its weight from the table. |
| PipelineRun.ScanContext.Report | services/worker/worker_app/stages/archive_structure.py:32-44 | Problems, encryption and incompleteness of an inventory become findings and flags of the file. |
| PipelineRun.ScanContext.AdoptChild | services/worker/worker_app/stages/base.py:83-102 | The container takes over findings, encryption, lack of support and failed stages of an entry. |
| PipelineRun.AnalyseFile | services/worker/worker_app/stages/archive_structure.py:47-67 | Opening an archive, or failing to, sets members, flags and findings, and charges the shared budget. |
| PipelineRun.RunAllStages | services/worker/worker_app/pipeline.py:361-417 | The loop over stages, with failures noted and early exit, leaves context and shared state as specified. |
| PipelineRun.Process | services/worker/worker_app/pipeline.py:361-504 | Scanning a file and what is in it, on objects updated in place, equals the recursive specification. |
| PipelineRun.ScanAllMembers | services/worker/worker_app/pipeline.py:455-504 | The loop over members with deadlines, failed extractions, early exit and adoption equals the specification. |
| PipelineRun.ProcessFull | services/worker/worker_app/pipeline.py:287-333 | Verdict and score of a full pass are the specified ones; a clean one means full coverage; and what any stage gave on any visited file has been judged. |
| Pipeline.AdoptTakesOver | services/worker/worker_app/stages/base.py:83-102 | A container scores at least what its entry scores, and keeps its flags and failures. |
| PipelineProofs.CleanMeansFullCoverage | services/worker/worker_app/pipeline.py:361-504 | If a full pass ends clean and the tenant does not fail open, then at every level of the tree each entry that is not empty, a link or metadata was extracted and passed every essential stage. |
| PipelineProofs.EarlyExitPreservesVerdict | services/worker/worker_app/pipeline.py:411-471 | The fast, the deep and the shadow pipeline give the same verdict on the same answers, although some stop early, wherever in the tree, and others go on to the end. |
| PipelineProofs.ScanIsBounded | services/worker/worker_app/pipeline.py:419-504 | On any tree, one that holds itself included, the scan ends, nests at most one level below the depth limit, runs stages on at most 501 files and stays within the one budget. |
| PipelineProofs.CachedScanAgrees | services/worker/worker_app/main.py:726-768 | The facts of any scan may go through the cache and be judged for any other tenant's policy. |
| PipelineReports.FinishedBears | services/worker/worker_app/stages/base.py:127-136 | After a stage the context bears what it bore before and what the stage gave: its codes, its flags, and how it failed; and nothing else. |
| PipelineReports.NothingIsLost | services/worker/worker_app/pipeline.py:361-504 | What any run of a stage on any visited file gave, at any depth, and what any archive looked into shows, is among the findings, flags and failed stages of the root. |
| PipelineReports.NothingIsMadeUp | services/worker/worker_app/pipeline.py:361-504 | Whatever the root bears, a run on a visited file gave it, of the very stage it is noted for, or it comes from an archive. |
| PipelineReports.EveryRunIsJudged | services/worker/worker_app/pipeline.py:287-333 | If a stage run on any visited file gives a code whose weight reaches the block threshold, the verdict is malicious; if one finds the file encrypted or not supported, or an essential stage crashes or times out and the tenant does not fail open, it is not clean. |
| PipelineReports.PlainExactly | services/worker/worker_app/pipeline.py:361-417 | A file that is no archive bears exactly what the runs of its stages gave. |
| PipelineReports.FileRan | services/worker/worker_app/pipeline.py:361-417 | Every visited file is the entry it is said to be and had its stages in their order, and all of them unless the score says stop. |
| PipelineReports.VisitExactly | services/worker/worker_app/pipeline.py:455-504 | The next entry: nothing past the block threshold or when time is up; scanned when all of it could be unpacked; passed over when it breaks off, and the end of the scan when it does not fit, both noted. |
| PipelineReports.NothingPastTheThreshold | services/worker/worker_app/pipeline.py:411-471 | Past the block threshold a scan that is neither deep nor in shadow mode runs no further stage and scans no entry. |
| WorkQueueTheorems.NoJobIsLost | services/worker/worker_app/main.py:464-612 | In every run, with workers dying at any step: each published entry is exactly one of undelivered, pending and acknowledged; a readable one is acknowledged only after a status of its scan was stored; and each status that asks for a human has its dead letter. |
| WorkQueueTheorems.RetriesAreBounded | services/worker/worker_app/reclaim.py:65-116 | In every run an entry is let in for processing at most once more than the delivery limit. |
| WorkQueueOrigins.StatusHasOrigin | services/worker/worker_app/main.py:464-612 | In every run, the status stored for a scan is the one with which the processing of one of its tasks ended, or asks for a human because some task gave the scan up. |
| WorkQueueOrigins.LetterHasOrigin | services/worker/worker_app/main.py:566-612 | In every run, each dead letter gives the reason for which a task on its scan gave up: processing failed, the journal showed a crash, or it was delivered too often. |
| WorkQueueOrigins.RepublishedWasStored | services/worker/worker_app/main.py:480-511 | In every run, a result that is published again was stored for its scan before. |
| WorkQueueOrigins.ResultIsDelivered | services/worker/worker_app/main.py:655-674 | A task whose processing ended with a result, left to itself, removes the record, stores that very result and acknowledges its entry. |
| WorkQueueOrigins.GivingUpIsTold | services/worker/worker_app/main.py:566-612 | One that gives up writes a letter with the reason, stores that a human is asked for, and acknowledges. |
| WorkQueueOrigins.FinalIsRepublished | services/worker/worker_app/main.py:480-511 | A redelivered scan with a final result is not processed again; its result is published as it is. |
| WorkQueueOrigins.FailedIsTriedAgain | services/worker/worker_app/main.py:480-531 | One without a result or with a failed one is processed, as the next attempt by the journal, unless the last crashed in a risky stage and there were as many as allowed. |
| WorkQueueOrigins.BooksAreTrue | services/worker/worker_app/main.py:464-612 | The counters of the model count what they are said to: how often an entry was let in, and deaths inside a risky stage. |
| WorkQueue.StoreKeepsInv | services/worker/worker_app/main.py:655-674 | Storing a status, fresh or repeated, keeps what every run keeps; one that asks for a human needs its dead letter first. |
| WorkQueue.WriteLetterKeepsInv | services/worker/worker_app/main.py:578-612 | Writing the dead letter before the status keeps what every run keeps. |
| WorkQueueTheorems.JournalCheckStaysSound | services/worker/worker_app/main.py:512-531 | The look into the journal keeps what a careful run keeps; and if the scan has taken a worker down before, the step is to give it up. |
| WorkQueueTheorems.AtMostOneHardDeath | services/worker/worker_app/failure.py:25-36 | For any one scan, whatever happens to others: if its tasks die only while its file is being processed, attempts at it do not overlap, its journal record does not expire, its status does not expire or it is published only once, and one crash is enough to give up, then it has at most one death inside a risky stage. |
| WorkQueueTheorems.OverlappingAttemptsDieTwice | services/worker/worker_app/main.py:480-531 | For every scan: with overlapping attempts, all else as above, it takes two workers down. |
| WorkQueueTheorems.ExpiredRecordDiesTwice | services/worker/worker_app/main.py:512-531 | Likewise, when its journal record expires between two attempts. |
| WorkQueueTheorems.DeathInBetweenDiesTwice | services/worker/worker_app/main.py:512-531 | Likewise, when the task that gives it up dies after the journal record is removed and before the dead letter is written. |
| WorkQueueTheorems.ExpiredStatusDiesTwice | services/worker/worker_app/main.py:480-511 | Likewise, when its status expires and it is published once more. |
| WorkQueueTheorems.SecondChanceDiesTwice | services/worker/worker_app/failure.py:25-36 | Likewise, when two crashes are needed to give a file up. |
| Reclaim.JobQueue.constructor | packages/vscommon/queue.py:40-46 | A new queue has no entries. |
| Reclaim.JobQueue.Publish | packages/vscommon/queue.py:56-57 | A published job is the newest entry; nothing else changes. |
| Reclaim.JobQueue.Ack | packages/vscommon/queue.py:96-97 | Acknowledging takes a pending entry out, and changes nothing for any other. |
| Reclaim.JobQueue.Consume | packages/vscommon/queue.py:59-94 | The next readable entry is handed out and counted as delivered once; unreadable ones on the way are acknowledged; none is skipped. |
| Reclaim.JobQueue.Pending | packages/vscommon/queue.py:99-116 | The oldest pending entries, in order, with idle time and delivery count. |
| Reclaim.JobQueue.Claim | packages/vscommon/queue.py:118-143 | Exactly the entries idle long enough change hands and count one delivery more; unreadable ones are acknowledged; the rest of the list is untouched. |
| Reclaim.Look | services/worker/worker_app/reclaim.py:83-101 | Exactly the orphans are to be claimed, with their delivery counts, and exactly those past the limit to be given up. |
| Reclaim.Collect | services/worker/worker_app/reclaim.py:106-116 | Whatever happened to the queue since the look: what the claim yields is sorted by that plan, and nothing else is returned. |
| Reclaim.Sweep | services/worker/worker_app/reclaim.py:65-116 | Every orphan seen changes hands, and the readable ones come back in order, to be processed or to be given up. |
| Reclaim.SweepFindsExactly | services/worker/worker_app/reclaim.py:56-116 | An entry comes out of a sweep if and only if fewer pending entries stand before it than the batch holds, and it is readable, idle long enough and without heartbeat; as given up if and only if it was delivered more often than allowed. |
| Reclaim.ClaimsAreExclusive | packages/vscommon/queue.py:118-130 | A second claim within the idle limit gets none of the entries of the first. |
| Reclaim.ClaimsAreCounted | services/worker/worker_app/reclaim.py:65-116 | A claim counts as a delivery: an orphan that changed hands and is orphaned again is given up exactly when it had been delivered as often as allowed before. |
| Reclaim.SweptInOrder | services/worker/worker_app/reclaim.py:106-116 | Jobs come out of a sweep oldest first, each once. |
| ResultChannel.NoLostWakeUp | packages/vscommon/queue.py:204-237 | In every interleaving, for any number of waiters and publishers and any timeout: a confirmed waiter returns empty-handed only if its deadline passed before any publisher was done; and what it returns was stored. |
| ResultChannel.ResultAtHand | packages/vscommon/queue.py:204-237 | Once a publisher is done, a confirmed waiter holds the result after two steps of its own. |
| ResultChannel.UnconfirmedMayMiss | packages/vscommon/queue.py:208-215 | Without the confirmation a waiter may miss the signal of a publisher that was done before its deadline. |
| ResultChannel.ResultWasPublished | packages/vscommon/queue.py:204-237 | In every run, what a waiter brings back was given to some publisher. |
| ResultChannel.EmptyHandedExactly | packages/vscommon/queue.py:204-228 | When a waiter comes back empty-handed: it would not wait, its time is up without a signal, nothing lay behind the signal, or the confirmation it had gone on without came late. |
| ResultChannel.SubscribedThenChecks | packages/vscommon/queue.py:204-228 | Subscribing and being told so takes two moves; who then finds a result brings it back, also if it would not wait. |
| ResultChannel.WaitBeginsAtCheck | packages/vscommon/queue.py:215-228 | A wait begins with a check, after subscribing, that found nothing, and lasts as long as asked for from there. |
| DeadLetters.StepBackIsExact | packages/vscommon/queue.py:440-450 | The ids up to the id one step back are exactly the ids below. |
| DeadLetters.BoundIsNeeded | packages/vscommon/queue.py:440-450 | This rests on the bound on the number within a millisecond. |
| DeadLetters.PageIsNext | packages/vscommon/queue.py:477-507 | A page read at any later time is the next stretch of the stream as the first page found it. |
| DeadLetters.Recent | packages/vscommon/queue.py:477-507 | The page loop returns exactly the newest letters of the tenant up to the count, newest first, whatever arrives between the pages: each stands in a readable entry of that tenant, places go down, no entry of the tenant newer than the last one found is left out, and none at all when fewer are found than asked for. |
| RateLimit.RateLimiter.Check | packages/vscommon/ratelimit.py:51-74 | A request is counted, refused or not, and decided on the weighed sum of two buckets; a refused one is told to wait one to sixty seconds. |
| RateLimit.CountsAreHits | packages/vscommon/ratelimit.py:59-67 | Over any run a counter equals the number of requests of its tenant in its bucket. |
| RateLimit.BucketBound | packages/vscommon/ratelimit.py:51-74 | A bucket lets through at most the limit. |
| RateLimit.CurrentBound | packages/vscommon/ratelimit.py:51-74 | What a bucket lets through leaves room for the weighed count of the bucket before. |
| RateLimit.RateBound | packages/vscommon/ratelimit.py:51-74 | With requests in the order of time, any minute that ends at the fraction e of its bucket lets through at most the limit times 1 + e, always fewer than twice the limit. |
| RateLimit.LimitAloneIsNoBound | packages/vscommon/ratelimit.py:33-42 | The limit itself is no such bound. |
| RateLimit.DecidedOnRequests | packages/vscommon/ratelimit.py:51-74 | In every run, a request is let through if and only if there is no limit, or the requests of its tenant in this minute, refused ones and itself included, and those of the minute before for the part of it that still counts, are no more than the limit; a refused one is told to wait to the end of the minute. |
| RateLimit.NoNeedlessRefusal | packages/vscommon/ratelimit.py:51-74 | Nobody is refused who made no more requests than the limit in this minute and the one before. |
| Concurrency.ConcurrencyLimiter.Acquire | packages/vscommon/ratelimit.py:93-117 | A scan is admitted if and only if its rank is below the limit; a refused one leaves nothing of its own behind. |
| Concurrency.NeverMoreThanLimit | packages/vscommon/ratelimit.py:93-120 | For every limit above 0, in every interleaving of entering, withdrawing and releasing in which each new scan comes in behind those present: admitted, unreleased and fresh scans never exceed the limit. |
| Concurrency.StrictClockIsOrderly | packages/vscommon/ratelimit.py:96-100 | Strictly increasing times and new names are enough for that. |
| Concurrency.EqualTimesOverrun | packages/vscommon/ratelimit.py:96-100 | With equal times two scans are admitted under a limit of one. |
| Concurrency.RefusedMeansFull | packages/vscommon/ratelimit.py:105-117 | A scan is refused only if as many others as the limit allows are in the set and not stale. |
| Concurrency.BeforeExactly | packages/vscommon/ratelimit.py:96-112 | Who ranks first: the earlier, and at equal times the smaller name; of two names always exactly one. |
| Concurrency.EntryExactly | packages/vscommon/ratelimit.py:105-110 | Once a scan has entered, the set holds it with the time, and of the others exactly those that are not stale. |
| Concurrency.StaleComeFree | packages/vscommon/ratelimit.py:105-117 | Slots of scans whose workers died come free: when all others are stale a scan is admitted. |
| Concurrency.AcquireInTwoSteps | packages/vscommon/ratelimit.py:105-117 | Entering and withdrawing as separate steps come to what acquiring a slot does. |
| DocxClean.FindUnit | services/worker/worker_app/cdr/docx.py:399-408 | The walk up at most twelve levels finds the nearest unit, or stays at the element. |
| DocxClean.Mark | services/worker/worker_app/cdr/docx.py:366-383 | Exactly the links to unwrap, in document order, and exactly the elements to take out are listed. |
| DocxClean.Unwrap | services/worker/worker_app/ooxml.py:580-589 | A link leaves the tree and its children take its place. |
| DocxClean.Clean | services/worker/worker_app/cdr/docx.py:366-396 | Cleaning in place is refused if and only if the root would have to go; otherwise exactly those elements stay that are not unwrapped and not inside one taken out, each under the nearest element above that is no unwrapped link. |
| DocxUnits.UnitExactly | services/worker/worker_app/cdr/docx.py:399-408 | What goes for an element: the nearest unit among it and the eleven elements above, or the element if there is none. |
| DocxUnits.DoomedExactly | services/worker/worker_app/cdr/docx.py:366-383 | Taken out are exactly the elements that never stay, and for each element other than a link that uses a removed relationship the nearest unit near enough, or itself. |
| DocxUnits.StaysExactly | services/worker/worker_app/cdr/docx.py:366-396 | An element stays if and only if it is the root, or is no link with a removed relationship and neither it nor an element above it is taken out. |
| DocxUnits.HangsExactly | services/worker/worker_app/ooxml.py:580-589 | Once the links are unwrapped, an element hangs from the nearest element above it that is none of them. |
| DocxRebuild.NoRemovedIdIsUsed | services/worker/worker_app/cdr/docx.py:366-396 | In a cleaned part an element uses a removed relationship if and only if it is the root and the root is a hyperlink that does. |
| DocxRebuild.SourceOfRelsName | services/worker/worker_app/ooxml.py:257-272 | The part is recovered from the name of its file of relationships, so no two parts share one. |
| DocxRebuild.Resolve | services/worker/worker_app/ooxml.py:275-289 | The loop over the pieces of a target yields the specified name of a part. |
| DocxRebuild.WalkIsPlain | services/worker/worker_app/ooxml.py:275-289 | A relative target never leads above the root: no step is empty, "." or "..". |
| DocxNames.RelsNameExactly | services/worker/worker_app/ooxml.py:257-262 | The relationships of a part lie in `_rels` beside it under its name, and those of the package in `_rels/.rels`. |
| DocxNames.RelativeTarget | services/worker/worker_app/ooxml.py:275-289 | A target that does not begin with a slash is looked for from the directory of its source, step by step; one of plain steps is that directory and the steps. |
| DocxNames.DownAndUpCancels | services/worker/worker_app/ooxml.py:280-288 | A step down and up again makes no difference, and at the root there is no step up. |
| DocxNames.EmptyStepsAreSkipped | services/worker/worker_app/ooxml.py:280-288 | Empty steps and "." make no difference. |
| DocxNames.TargetFromRoot | services/worker/worker_app/ooxml.py:277-278 | A target that begins with slashes is the name behind them. |
| DocxRebuild.Filter | services/worker/worker_app/cdr/docx.py:283-303 | The relationships kept and the ids removed are exactly those of the survivors and of the others. |
| DocxRebuild.Rebuild | services/worker/worker_app/cdr/docx.py:243-321 | A package is rebuilt if and only if its main part is on the list and all that is kept can be read and cleaned; then parts, relationships and cleaned trees are exactly the specified ones. |
| DocxRebuild.PartsAreAllowed | services/worker/worker_app/cdr/docx.py:250-257 | Every part of the new package is on the allow-list. |
| DocxRebuild.RelationshipsAreClosed | services/worker/worker_app/cdr/docx.py:276-303 | Every file of relationships belongs to a part of the package or to the package; among the children of its root, internal ones lead to a part of the package, external ones are safe hyperlinks, as `DocxLinks.ExternalExactly` describes them. |
| DocxLinks.HyperlinkExactly | services/worker/worker_app/ooxml.py:237-254 | A target is let through if and only if, white space at its ends aside, it does not begin with two slashes or two backslashes, and what stands before its first colon is no drive letter and no scheme of ASCII letters, digits, plus and minus other than http, https and mailto in any case. |
| DocxLinks.ExternalExactly | services/worker/worker_app/cdr/docx.py:294-297 | An external relationship is harmless if and only if the last segment of its type is `hyperlink` in any case and its target is let through. |
| DocxLinks.LinksExactly | services/worker/worker_app/cdr/docx.py:283-303 | In a rebuilt package the children of the root of a file of relationships are exactly those of the file read that are harmless links or lead to a part of the package. |
| DocxLinks.RemovedExactly | services/worker/worker_app/cdr/docx.py:283-302 | The ids that a part loses are exactly those of the relationships that may not stay. |
| DocxLinks.KeptInOrder | services/worker/worker_app/cdr/docx.py:283-303 | Each stays or goes on its own account, and those that stay keep their order. |
| DocxLinks.PartsExactly | services/worker/worker_app/cdr/docx.py:250-275 | The parts of the new package are exactly the files on the list that hold no relationships, do not list the types, and are no picture that cannot be decoded. |
| DocxUnits.RebuildableExactly | services/worker/worker_app/cdr/docx.py:243-321 | A package is rebuilt if and only if its main part is on the list, no picture on the list is unreadable, the relationships of the package and of each part kept can be read, and each part that is no picture parses and its root need not go. |
| DocxUnits.FilesExactly | services/worker/worker_app/cdr/docx.py:276-303 | The new package has a file of relationships for itself and for each of its parts exactly where there was one. |
| DocxUnits.TreesExactly | services/worker/worker_app/cdr/docx.py:305-321 | Of each part that is no picture the new package has exactly the elements that stay, the root among them. |
| DocxRebuild.NoElementDangles | services/worker/worker_app/cdr/docx.py:305-321 | No element of a part of the new package uses a removed relationship, unless the root is a hyperlink that does. |
| DocxRebuild.Verify | services/worker/worker_app/cdr/docx.py:149-181 | The check of a package lists exactly the parts off the allow-list and exactly the files that hold, as their root or at any depth, an external relationship that is no safe hyperlink. |
| DocxLinks.ReportedExactly | services/worker/worker_app/cdr/docx.py:176-181 | A file of relationships is reported if and only if its root, or an element at any depth inside it, is an external relationship that is not harmless. |
| DocxRebuild.CheckFindsExactly | services/worker/worker_app/cdr/docx.py:149-181 | On a rebuilt package it finds no part out of place, and a file at fault if and only if, in the file read, the root is itself a bad external relationship or a bad one lies below a child of the root that survives. |
| DocxRebuild.RootIsKept | services/worker/worker_app/cdr/docx.py:283-303 | The root of a file of relationships is at fault in the new package if and only if it was in the file read. |
| DocxRebuild.RootRelationshipIsMissed | services/worker/worker_app/cdr/docx.py:283-303 | A file whose root is a bad external relationship without children passes the rebuild unchanged, and the check finds it. |
| DocxRebuild.NestedRelationshipIsMissed | services/worker/worker_app/cdr/docx.py:283-303 | A file whose only child survives and holds a bad external relationship passes the rebuild unchanged, and the check finds it. |
| ZipRebuild.SafeNameIsPlain | services/worker/worker_app/archive.py:353-361 | No component of a safe name is empty, "." or "..". |
| ZipRebuild.SafeNameEscapesExactly | services/worker/worker_app/archive.py:353-361 | A safe name leads out of the directory if and only if the first component of the name given that is not dropped is, once cleaned, one character, a colon and something more. |
| ZipRebuild.DriveStays | services/worker/worker_app/archive.py:353-361 | A printable name of three to 128 characters, without slashes and white space, whose second is a colon, stays as it is and leads out. |
| ZipRebuild.DriveOfThree | services/worker/worker_app/archive.py:353-361 | For instance `C:x`. |
| ZipEntries.OrdinaryNameStays | services/worker/worker_app/archive.py:353-361 | A name of ordinary components stays as it is. |
| ZipEntries.NamelessIsNumbered | services/worker/worker_app/archive.py:353-361 | A name whose components are all dropped gives way to a numbered one. |
| ZipEntries.SlashesDoNotMatter | services/worker/worker_app/archive.py:353-361 | It makes no difference to a safe name which way the slashes lean. |
| ZipEntries.ComponentExactly | services/worker/worker_app/archive.py:356-360 | Each component loses what cannot be printed and white space at its ends; nothing, ".", ".." and drives then go, and of long ones the first 128 characters stay. |
| ZipEntries.PrintableExactly | services/worker/worker_app/archive.py:356-360 | What cannot be printed goes wherever it stands, and nothing else. |
| ZipEntries.ExtensionExactly | services/worker/worker_app/cdr/archive.py:52-62 | The extension of a name begins at the last dot of its last component, if that is neither its first nor its last character. |
| ZipEntries.ExtensionFollows | services/worker/worker_app/cdr/archive.py:52-62 | The new name of a rebuilt member has the extension of its content in the place of its own; it stays if it has one for the same content. The lower case of the extension is taken to be as long as the extension. |
| ZipEntries.LowerCaseDecidesTheCut | services/worker/worker_app/cdr/archive.py:59-62 | Exactly then the name before the extension is left as it is. |
| ZipRebuild.TriedDiffer | services/worker/worker_app/cdr/archive.py:65-72 | The names tried in turn differ, also in lower case. |
| ZipRebuild.Unique | services/worker/worker_app/cdr/archive.py:65-72 | The search ends within as many steps as names are taken, at the first name that is free whatever the case of its letters. |
| ZipRebuild.RebuildMembers | services/worker/worker_app/cdr/archive.py:108-135 | The loop over the files stops at the first failure, with that failure; otherwise its entries, names and reports are exactly those of the files carried over. Bytes that nested archives unpack count against the same budget. |
| ZipRebuild.Sanitize | services/worker/worker_app/cdr/archive.py:79-143 | An archive too deep, not checked whole, with a member that fails, or too large is refused for that reason; any other is rebuilt. |
| ZipEntries.ProgressExactly | services/worker/worker_app/cdr/archive.py:108-123 | The rebuild gets to the end if and only if each member can be unpacked whole within its size and the budget, is rebuilt, and all that is put out is within 128 MiB; otherwise it ends for the reason of the first member in whose way something stands. |
| ZipEntries.RebuiltExactly | services/worker/worker_app/cdr/archive.py:79-143 | An archive is rebuilt if and only if it is no bomb, nothing in it is encrypted or left out, nothing stands in the way of its members, and the new archive is within 128 MiB; otherwise the first of these that fails is the reason given. |
| ZipEntries.EntryExactly | services/worker/worker_app/cdr/archive.py:103-135 | Each entry comes from a file that is no metadata; it is empty exactly when its file was not selected, and then the file is; and it has the first name tried that no earlier entry has. |
| ZipEntries.NotesExactly | services/worker/worker_app/cdr/archive.py:103-135 | What is noted: that an archive was rebuilt, and exactly what its files give cause to. |
| ZipRebuild.CheckedIsCarried | services/worker/worker_app/archive.py:268-287 | In an archive that was checked whole, every file that is neither metadata nor a link is carried over. |
| ZipRebuild.NothingIsDropped | services/worker/worker_app/cdr/archive.py:103-135 | On success every file that is neither macOS metadata nor a link is the source of exactly one entry, metadata of none, and no two entries share a name, whatever the case of its letters. |

## Left out

- FieldRunTheorems.ScanWhenApart: says nothing of a part in which a deleted run holds something of a field that stays; `FieldRunTheorems.ApartIsNeeded` shows what may happen. The condition goes one way: what is deleted with such a run may by chance make no difference, as an empty fragment does.
- FieldRunTheorems.OnlySafeIsLeft: needs whole instructions as well; `FieldTheorems.WholeIsNeeded` shows why.
- Fields.ScanFields: field marks and instructions outside any run, marks inside instruction elements, an instruction element inside another, and the marker elements that the scanner reports besides fields, are not modelled.
- Fields.StripFields: likewise; nor are runs inside runs, as in a text box, where a run may go with an outer one.
- Xml.Serialize: works on tokens; escaping, comments and processing instructions are not modelled. The tail of the root is never written.
- XmlRoundTrip.RoundTrip: of the grammar of names only braces, colons and emptiness are modelled, and of the characters XML can hold only the carriage return; a part built with other names or characters cannot be written either, and a part that was read has none. Trees are values: a child is attached to its parent when it ends, not when it starts, which no handler can observe.
- XmlParse.Parse: declarations that reuse the name `xmlns` or its namespace, and repeated declarations of one prefix on an element, are left to the tokeniser; so are document types and entities, which are refused.
- WorkQueueTheorems.AtMostOneHardDeath: says nothing of a scan whose journal record expires, whose attempts overlap, or one of whose tasks dies before or after its file is processed, as another task of the same worker may cause; each of these may lead to a second death, and not every such run does.
- WorkQueueTheorems.RetriesAreBounded: a sweep's look and its claim are one step; any pending entry may turn out to be orphaned, so idle times and heartbeats are not followed there (they are in `Reclaim.dfy`).
- WorkQueueTheorems.NoJobIsLost: does not cover a stream lost with a restart of Redis, or entries trimmed from it.
- Reclaim.Sweep: reads all heartbeats at one time and claims at the same; what others do in between is covered by `Reclaim.Collect`.
- ResultChannel.NoLostWakeUp: stored results do not expire.
- DeadLetters.Recent: the stream is not trimmed between pages.
- RateLimit.RateBound: real numbers, without rounding; counters do not expire while they are read.
- Concurrency.NeverMoreThanLimit: needs the order of entries described there; `Concurrency.EqualTimesOverrun` shows why.
- DocxClean.Unwrap: which elements stay and under which parent is modelled, their order among siblings, text and tails are not.
- DocxClean.Clean: text and tails are not modelled; the removal of field codes that follows, which only takes elements out, is modelled in `Fields.dfy`.
- DocxRebuild.Rebuild: the list of content types and the summary of changes are not modelled; the allow-lists are arbitrary, subject to the check allowing all that a rebuild keeps. Paths are taken as already normalised.
- DocxRebuild.Verify: the checks on content types, macros and fields are not modelled.
- DocxRebuild.CheckFindsExactly: takes a file of relationships to be read back as it was written; `XmlRoundTrip.RoundTrip` says exactly when it is.
- ZipRebuild.Sanitize: lower case works character by character, so the final sigma is not covered; the decoding of names, dates and attributes of entries are not modelled, and the size of the new archive is given. What a nested archive declares and selects on the shared budget matters only to later nested archives, whose outcome is given. A link with the name of a selected file is rebuilt like that file, as in the code.
- Archive.UnpackBudget.constructor: the deadline of a budget is not part of it; in `Pipeline.dfy` whether time is up is an answer of the outside world.
- PipelineRun.ScanContext.AddFinding: the weight is a function of the code of the finding; a stage may look it up under another key, as under the tag of a rule, which is taken as fixed for each code.
- PipelineRun.ProcessFull: the allow-list of files and the sanitizing step after the verdict are not modelled.
- PipelineProofs.CleanMeansFullCoverage: takes a weight of the finding for archive bombs that reaches the weaker threshold, as the default of 100 does. A stage that timed out may have recognised the type or opened the archive before; other partial effects are not modelled.
- Scoring.CacheAgreesWithFullScan: takes one weight for each code, as one weight table gives; `Scoring.SplitNeedsOneWeightTable` shows why.
- Severity and details of findings, timings.
- The document built from scratch under the strict profile: long, but element by element.
- Engines, signatures, decoders, compression, hashing; HTTP, Telegram, S3 and database access; metrics and logs.
- Quotas, tickets, ownership, freshness and the other small checks of the gateway: each is a comparison or two.
