# Verified models of the repository's tooling

A Dafny model of the algorithms in this repository that are hardest to get right by hand, with proofs of what they are
for. Run `dafny verify dfyconfig.toml` in this directory.

**Module splitter** (`scripts/split_modules.py`). `ImportCycles` is the depth-first search for import cycles and the
loop that defers annotation-only imports: it ends, it succeeds exactly when the imports that run-time reads need are
acyclic, and what it returns is acyclic. `Placement` puts each statement into a file and orders the file. A lookup is
a pair: the item whose code makes it and the name, so a decorator or a called function looks names up with its own
code. `PackageImport` runs the package file by file, import statements included, and says for every module exactly
when that run finds every name (`PackageImportsIff`); in the order of the graph the import statements themselves
always work. `SplitPlan` is the plan with its refusals. That a package imports wherever its module did is false: three
kinds of module pass every refusal test and never import once split, and `SplitBreaks` has a concrete one of each, a
decorator that reads a constant (`DecoModuleBreaks`), a private name rebound by `global` and read by a statement
beside it (`MemoModuleBreaks`), and a name bound twice (`TwiceModuleBreaks`).

**JSON matcher of a generated Playwright test** (`bajutsu/codegen/_playwright_dict_match.py`). `JsonLexis` (with the
ways to spell a string, `ScanStringIff`) and `JsonReader` are the recursive-descent reader, as functions and as a class
over an index; `JsonGrammar` proves it takes exactly the grammar of RFC 8259, sections 2 to 7, with three more
literals, and that white space never matters. `FloatText` is the layout of floats from their shortest digits,
`JsonText` the canonical text and its round trips, `JsonKeys` the order of repeated keys. `PythonJson` is the runner's
side, `json.loads` and `json_text` (`bajutsu/common/assertions/dict_match.py`), and `DictMatch` the two matchers, each
over its own reader and text form. They do not always agree: the runner leaves a lone surrogate inside an array or
object as it is, the generated test escapes it, and Python refuses an integer of more than 4300 digits.
`AllExchangesAgreeIff` says that this is all: on an exchange every matcher gets one verdict exactly when its body holds
neither (`ReadersAgreeIff`, by way of `JsonUnique`, for the integers, `AllMatchersAgreeIff` and `TextsAgreeIff` for the
surrogates). `DictPatterns` is what a matcher says of a body. Text is a sequence of UTF-16 code units.

**Rolling-branch protocol** (`scripts/refresh_pr.py`). `RollingBranch` interleaves any number of publish runs with
human pushes and merges, one git operation at a time. A push drops human work exactly when its lease holds on a branch
whose bot-committed tip has a human commit under it; that state is the exact boundary of safety
(`SafeIffTipTellsOwner`). A run that nothing disturbs publishes exactly if there is no branch or the bot committed its
tip (`RunPublishesIff`). A plain push to a branch that came into being meanwhile is described in the source as always
rejected; the model also lets it through as a fast-forward, as git does, and nothing is lost by it.

**Roadmap template fixer and its checker** (`scripts/fix_roadmap_drift.py`, `scripts/check_roadmap_format.py`).
`TextLines` is Python's `splitlines`; `Template` the fence-aware heading scan; `TemplateFix` a file as preamble and
sections; `TemplateRebuild` the rebuild over heading positions; `TemplateComplete` and `TemplateExact` when its result
passes the heading check, in both directions; `TemplateSettles` when a second rebuild changes nothing, again in both
directions; `TemplateFields` the metadata rows, where fixer and checker cut lines differently, so a row with an exotic
line boundary inside is flagged but never removed (`HiddenRow`); `TemplateFixer` both fixes in a row, `TemplateRows`
what a section put in between two others does to a metadata block around it, and `TemplateFixed` what is flagged in the
end, for every file: what the fixer never saw, but for a row that a new section tears apart (`TemplateTorn`).

**Register check** (`scripts/ja_register_check.py`). `InlineComments` cuts comments out of a line through a masked
copy; `ProseScanner` is the Markdown scanner, a class over its fields; `ProseFacts` proves that fenced code cannot
influence its blocks, nor what a comment says if it has an even number of backticks; one left over pairs with a
backtick behind the comment and hides its end (`CommentTextMattersIff`). `ProseLines` proves that each character of a
block knows its line; `ProseShape` tells, with no scanner's state, which lines share a block and what of each stands in
it; `Sentences`, `SentenceFacts` and `Trailing` are the sentence splitter, down to which stretches of a block are its
sentences (`SentenceIff`), and `strip_trailing`, with equations for what it keeps; `RegisterCheck` the whole check;
`Keitai` the judgement of the analyzer's morphemes.

**Allowlist of a refresh run** (`scripts/refresh_pr.py`). `Allowlist`: git reports a new directory as one entry, so a
pattern that matches the directory's path but not the files below it lets those files into the commit. Which patterns
do can be read off them; the patterns the workflows pass do not.

**Code generation that keeps meaning** (`bajutsu/codegen/`). `Globs`, `LocatorText` and `GlobRegex` compile globs to a
CSS operator and a Java pattern, which agree exactly on ids without line breaks; the CSS escapes are undone by the
JavaScript string the selector is pasted into, so `ReadsBackIff` gives the exact set of cores that survive;
`KotlinText` shows that the Kotlin literal around the Java pattern loses nothing. `Cleanup` runs the three emitted
cleanup forms on a small semantics: they agree on the verdict always, and on the steps taken exactly until a cleanup
step fails. `RequestScan` and `SlicedWait` are two emitted loops.

**Selecting end-to-end jobs** (`scripts/e2e_changes.py`). `WorkflowScan` is the line scanner as a state machine,
proved to read exactly the workflows in the supported forms and to raise on all others; `LaneSelection` concludes that
the selection never under-fires.

**Stream recorder and its report** (`scripts/synthesis_stream_record.py`, `scripts/synthesis_stream_report.py`).
`LogStream` is the line cutter and the one-pass search for lines out of order, `SessionLog` the recorder's loop,
stopped or killed anywhere, against what the reader says was lost, `SynthesisWindows` the windows and the drops they
cover. The reader takes a `stopped` for the end of the session last opened, so a run that is stopped before its first
`start` hides that the one before was killed (`StrayStopHides`); no other run does (`UnterminatedIs`), unless the kill
cut a record short (`TornRecordHides`).

**Smaller cores.** `Renaming` is the deepest-first renaming of a tree by `git mv` (`scripts/allocate_roadmap_ids.py`):
an entry whose new name a directory has already moves into that directory, and the loop stops only at a file.
`Cancellation` is the `SIGTERM` handler as a state machine (`bajutsu/common/cancellation.py`); a first `SIGTERM` that
arrives between the disarming of the timer and the restoring of the handler arms the timer again, and its alarm then
meets the previous handler (`LateRequestKillsFinishedRun`).

## Model

| member | source | states |
|---|---|---|
| `ImportCycles.RuntimeCycles` | scripts/split_modules.py:722-747 | the search finds nothing exactly when the graph has no cycle; whatever it reports is a cycle; a clean graph gets an order in which every import points to an earlier file |
| `ImportCycles.CycleSearch.Walk` | scripts/split_modules.py:731-741 | one walk from a file keeps the frontier invariant: explored files are on the path or finished, and finished files import only finished ones while no cycle was found |
| `ImportCycles.CycleSearch.Close` | scripts/split_modules.py:733-738 | an edge back into the path records a cycle once per set of files |
| `ImportCycles.ChooseDeferred` | scripts/split_modules.py:756-802 | ends; succeeds exactly when the run-time reads' imports are acyclic; the result is acyclic, defers only annotation-only names, whole edges, and only where a cycle forces it; a refusal carries a cycle no deferral can break |
| `ImportCycles.FindDeferrable` | scripts/split_modules.py:782-792 | the edge chosen has only annotation-only names left; if none is found every edge of the cycle is needed at run time |
| `ImportCycles.DeferKeepsShape` | scripts/split_modules.py:785-791 | deferring an annotation-only edge never defers a name read at run time and takes the edge whole |
| `ImportCycles.DeferKeepsForced` | scripts/split_modules.py:781-792 | every deferred import lies on a cycle of the imports as they stood before any deferral |
| `ImportCycles.DeferProgress` | scripts/split_modules.py:769-792 | each deferral strictly shrinks the pending imports, so the loop ends |
| `ImportCycles.LayeredIsAcyclic` | scripts/split_modules.py:722-747 | an order in which imports only point backwards rules out every cycle |
| `Placement.AssignOwners` | scripts/split_modules.py:639-689 | places every statement by the rule, for every module, and refuses exactly when a class rebinds a name with `global` |
| `Placement.MergeReads` | scripts/split_modules.py:641-658 | the reads of all declarations of one file are merged |
| `Placement.PlacedAloneIsPrivate` | scripts/split_modules.py:661-689 | a statement placed in a class file or with the functions is read by no other file's declaration and by no other statement |
| `Placement.RenderedIs` | scripts/split_modules.py:858-863 | each file holds each of its items exactly once, statements that read no declaration first, then declarations, then the rest, each group in source order |
| `Placement.FileLoadsIff` | scripts/split_modules.py:858-863 | given that the module imported and binds each name once, every lookup made in a file at import, those of called code included, finds its code and name if and only if no item runs code of a later group and none above the trailing statements looks up a name they bind |
| `Placement.OnlyDeclarationsAreEarly` | scripts/split_modules.py:661-689 | with nothing rebound by `global`, placement itself rules out every early look-up of a name but while a declaration runs, calls of later code aside |
| `PackageImport.BindingStems` | scripts/split_modules.py:692-698 | every top-level name, and no other, is mapped to the file of the last statement that binds it, or else of the last declaration |
| `PackageImport.HeadersWork` | scripts/split_modules.py:750-753 | in the order of the acyclic graph every `from` import at the top of a file finds its name bound already |
| `PackageImport.PackageImportsIff` | scripts/split_modules.py:978-1039 | for every plan and module, names bound twice included: run file by file, the package imports if and only if each lookup made at import is one of code in an earlier file, or above in the same one that then binds the name above |
| `PackageImport.ImportsIffNothingEarly` | scripts/split_modules.py:858-863 | where the module imported and binds each name once, that is: code is called only in files imported before, and no file uses a trailing name or later code early |
| `SplitPlan.PlanSplit` | scripts/split_modules.py:978-1039 | refuses exactly as the first failing test says; a plan follows the placement rule, is acyclic, defers annotation-only names, and in every order in which `__init__` can import its files the package imports exactly where every lookup is found |
| `SplitPlan.CheckRebound` | scripts/split_modules.py:995-1023 | refused for a public rebound name, then for a rebound name another file reads, and for nothing else |
| `SplitPlan.SelfContainedIsPlanned` | scripts/split_modules.py:978-1039 | a module whose files read only what they hold is refused only for a rebinding |
| `SplitPlan.InitHoldsNothing` | scripts/split_modules.py:661-664 | nothing is ever imported from the package's own `__init__` |
| `SplitBreaks.DecoModuleBreaks` | scripts/split_modules.py:858-863 | a module with a decorator that reads a constant: it imports, every refusal test passes, and the package never imports, as the constant now stands below the decorated function |
| `SplitBreaks.MemoModuleBreaks` | scripts/split_modules.py:674-678 | a module with a private memo rebound by `global`: it imports, every refusal test passes, and the package never imports |
| `SplitBreaks.TwiceModuleBreaks` | scripts/split_modules.py:695-698 | a module that binds a name twice: it imports, every refusal test passes, and the package never imports, as the bindings went to two files |
| `JsonLexis.ScanStringComplete` | bajutsu/codegen/_playwright_dict_match.py:23-32 | every string of the grammar is scanned, whatever follows, and means what its escapes mean |
| `JsonLexis.ScanStringSound` | bajutsu/codegen/_playwright_dict_match.py:23-32 | whatever is scanned as a string is one of the grammar's |
| `JsonLexis.ScanStringIff` | bajutsu/codegen/_playwright_dict_match.py:23-32 | a string is read as these units if and only if its source, between quotation marks, spells them one by one in the ways of section 7 of RFC 8259, each escape and digit with its value written out |
| `JsonLexis.ScanNumberComplete` | bajutsu/codegen/_playwright_dict_match.py:22-22 | a number token is scanned whole when what follows cannot continue it |
| `JsonLexis.ScanNumberSound` | bajutsu/codegen/_playwright_dict_match.py:22-22 | whatever is scanned as a number is one of the grammar's |
| `JsonReader.Reader.Value` | bajutsu/codegen/_playwright_dict_match.py:33-78 | the index-based reader does on the rest of the text what the specification function does |
| `JsonReader.Reader.ObjectBody` | bajutsu/codegen/_playwright_dict_match.py:35-51 | the loop over an object's members, into an ordered map |
| `JsonReader.Reader.ArrayBody` | bajutsu/codegen/_playwright_dict_match.py:52-64 | the loop over an array's items |
| `JsonReader.Reader.KeyAndValue` | bajutsu/codegen/_playwright_dict_match.py:41-45 | a key, a colon and a value |
| `JsonReader.ReadJson` | bajutsu/codegen/_playwright_dict_match.py:79-83 | the whole reader, with nothing left over, equals the specification function |
| `JsonGrammar.ReadIffWritten` | bajutsu/codegen/_playwright_dict_match.py:20-83 | the reader yields a value if and only if the text is a document of the grammar with that meaning |
| `JsonGrammar.WrittenIsRead` | bajutsu/codegen/_playwright_dict_match.py:20-83 | every document is read, with its meaning |
| `JsonGrammar.SpelledIsRead` | bajutsu/codegen/_playwright_dict_match.py:26-32 | a body that is a string is read as the units its source spells, in whatever way it spells each |
| `JsonGrammar.SpacingIsIrrelevant` | bajutsu/codegen/_playwright_dict_match.py:25-25 | two spacings of one document read alike |
| `JsonKeys.RepeatedKeys` | bajutsu/codegen/_playwright_dict_match.py:37-45 | a repeated key keeps its first place and its last value; no key is lost |
| `JsonKeys.ObjectKeys` | bajutsu/codegen/_playwright_dict_match.py:35-51 | the same of an object as it is read |
| `FloatText.DigitsTextIsFloat` | bajutsu/codegen/_playwright_dict_match.py:90-101 | every layout is a number token with a point or an exponent |
| `FloatText.FloatTextIsExact` | bajutsu/codegen/_playwright_dict_match.py:90-101 | every layout denotes exactly the decimal its digits and exponent denote |
| `FloatText.FloatTextReadsBack` | bajutsu/codegen/_playwright_dict_match.py:85-101 | nested float text is again a float token of the same double |
| `JsonText.QuotePiecesMeaning` | bajutsu/codegen/_playwright_dict_match.py:106-108 | a quoted string reads back as the string |
| `JsonText.TextReadsBack` | bajutsu/codegen/_playwright_dict_match.py:102-112 | reading the nested text of any value gives its canonical form, keys in order, integers and floats apart |
| `JsonText.CanonIsStable` | bajutsu/codegen/_playwright_dict_match.py:102-112 | the canonical form writes the same text and is its own canonical form |
| `JsonText.SameTextIffSameCanon` | bajutsu/codegen/_playwright_dict_match.py:102-112 | two values have one text if and only if they have one canonical form, so comparing texts compares values |
| `JsonText.PrintingIsStable` | bajutsu/codegen/_playwright_dict_match.py:20-112 | reading, printing and reading again gives the canonical form, and from then on nothing changes |
| `PythonJson.FloatsAgree` | bajutsu/common/assertions/dict_match.py:37-39 | every float is written as Python's `repr` writes it |
| `PythonJson.PairedIff` | bajutsu/common/assertions/dict_match.py:37-37 | the scan for lone surrogates finds one if and only if some unit is a surrogate without its partner |
| `PythonJson.TextsAgreeIff` | bajutsu/common/assertions/dict_match.py:25-39 | the text the generated test compares is the runner's if and only if no string inside an array or object, and no key, holds a lone surrogate |
| `JsonUnique.NumbersAreOfTheText` | bajutsu/codegen/_playwright_dict_match.py:20-83 | all documents that write one text have the same numbers, in one order |
| `PythonJson.LoadsIffRead` | bajutsu/common/evidence/network/network_exchange.py:41-49 | for every text: `json.loads` reads a value if and only if the generated reader reads it as that value and no integer in the text is too long for Python |
| `PythonJson.ReadersAgreeIff` | bajutsu/common/evidence/network/network_exchange.py:41-49 | the two readers take a text alike if and only if it has no integer of more than 4300 digits |
| `PythonJson.LongIntegerDiffers` | bajutsu/common/evidence/network/network_exchange.py:45-48 | a number of more than 4300 digits that the generated test reads and the runner does not |
| `DictMatch.BodyMismatch` | bajutsu/common/assertions/dict_match.py:76-104 | no mismatch exactly when the value holds; else the place it names is the first that does not hold of itself, past nothing but values that hold |
| `DictMatch.DictMismatch` | bajutsu/common/assertions/dict_match.py:107-142 | no mismatch exactly when query and body hold; else what it reports is so, and all it checked before holds |
| `DictMatch.BodiesAgree` | bajutsu/codegen/_playwright_dict_match.py:113-134 | on values without lone surrogates the generated matcher and the runner's, each over its own reader's values and its own text form, give one verdict on every matcher that loads, in whatever order the keys come |
| `DictMatch.ExchangesAgree` | bajutsu/codegen/_playwright_dict_match.py:135-154 | the generated test matches an exchange, query and unread body included, if and only if the runner does, where a body read as an object has no lone surrogate in a value and no integer too long for Python |
| `DictMatch.AllExchangesAgreeIff` | bajutsu/codegen/_playwright_dict_match.py:135-154 | for every exchange: every matcher that loads gets one verdict if and only if the body, where it is read as an object, has no integer too long for Python and no lone surrogate inside a value |
| `DictMatch.AllMatchersAgreeIff` | bajutsu/codegen/_playwright_dict_match.py:106-108 | on a body's object every matcher that loads gets one verdict if and only if no value in it has a lone surrogate inside |
| `DictMatch.SurrogateBody` | bajutsu/common/assertions/dict_match.py:37-37 | a body with an escaped lone surrogate is read, and is one on which some matcher gets two verdicts |
| `DictMatch.KeyIsUndone` | bajutsu/common/scenario/models/assertions/_dict_matcher.py:17-24 | an escaped field name is a plain key and names the field |
| `DictMatch.OperatorKeyIff` | bajutsu/common/scenario/models/assertions/_dict_matcher.py:17-24 | a key is an operator's exactly if one dollar sign begins it, and not two |
| `DictMatch.ValuesAre` | bajutsu/common/assertions/dict_match.py:107-142 | every value of a repeated query parameter is seen, in order |
| `DictPatterns.PlainKeysAreApart` | bajutsu/common/scenario/models/assertions/_dict_matcher.py:22-24 | two plain keys never name one field |
| `DictPatterns.PatternMatchesIff` | bajutsu/common/assertions/dict_match.py:76-104 | the matcher written after a value matches exactly the values that extend it: same texts, same array lengths, objects perhaps with more fields |
| `DictPatterns.BodyMatchesItsPattern` | bajutsu/common/scenario/models/assertions/_dict_matcher.py:44-69 | of every body that is read, the matcher written after it loads and matches it |
| `DictPatterns.OnlyNamedFieldsMatter` | bajutsu/common/assertions/dict_match.py:76-104 | the verdict depends on nothing but the fields the matcher names, at every depth |
| `RollingBranch.StepKeepsRuns` | scripts/refresh_pr.py:248-280 | every step of anyone keeps every run's promise: it checked out base history, and its commit is the bot's own on top of that |
| `RollingBranch.PushLoses` | scripts/refresh_pr.py:266-280 | a push loses human work exactly when its lease holds, and then all of it; a lease only names a tip the bot committed |
| `RollingBranch.OtherStepsLoseNothing` | scripts/refresh_pr.py:248-265 | no other step of a run, and no merge, takes anything off the branch |
| `RollingBranch.HonestInvariant` | scripts/refresh_pr.py:120-128 | over every interleaving with honest human pushes, a bot-committed tip has no human work under it |
| `RollingBranch.NoHumanWorkLost` | scripts/refresh_pr.py:248-280 | over every interleaving with honest human pushes, no push drops a human commit |
| `RollingBranch.SafeIffTipTellsOwner` | scripts/refresh_pr.py:120-128 | left to runs and merges, a branch is safe if and only if a bot-committed tip has no human work under it |
| `RollingBranch.HiddenWorkIsLost` | scripts/refresh_pr.py:120-128 | a branch where a run of the protocol drops a human commit |
| `RollingBranch.AloneEnds` | scripts/refresh_pr.py:177-185 | a run that nothing disturbs takes six steps at most; ended, it has put its own commit, on the base commit, on a branch that was missing or had a bot-committed tip, and otherwise has changed nothing |
| `RollingBranch.RunPublishes` | scripts/refresh_pr.py:263-280 | with no branch, or a bot-committed tip, some such run ends with a given fresh commit as the branch's tip |
| `RollingBranch.RunPublishesIff` | scripts/refresh_pr.py:120-128 | every undisturbed run can come to its end, and has published if and only if the branch was free |
| `RollingBranch.PushIff` | scripts/refresh_pr.py:266-280 | a push with a lease lands if and only if the branch is where the run saw it, a plain one if and only if its commit has all of the branch in its history; else nothing changes |
| `RollingBranch.ListedRunsLease` | scripts/refresh_pr.py:177-185 | over every behaviour, a run that listed a branch never pushes without a lease on the tip it saw |
| `TextLines.LinesConcat` | scripts/check_roadmap_format.py:226-240 | text is cut alike in parts and as a whole, where the first part ends a line |
| `TextLines.LinesOfJoin` | scripts/fix_roadmap_drift.py:72-88 | lines put together are cut as they were |
| `Template.HeadingPositions` | scripts/check_roadmap_format.py:226-240 | the scan's positions are those of the fence-aware specification |
| `Template.PositionsIff` | scripts/check_roadmap_format.py:226-240 | a line is found with its name if and only if it begins with two hashes and a space behind an even number of lines that begin with three backticks |
| `Template.SubsequenceIff` | scripts/check_roadmap_format.py:139-142 | the fields pass if and only if each has a place of its own in the order, behind the one before |
| `Template.NamesConcat` | scripts/check_roadmap_format.py:226-245 | the headings of two parts, the second scanned from the fence state of the first |
| `Template.NewlineKeepsNames` | scripts/fix_roadmap_drift.py:88-88 | one more newline at the end changes no heading and no fence |
| `TemplateFix.CutIs` | scripts/fix_roadmap_drift.py:73-81 | preamble and sections in order are the file; each section has exactly its own heading, and every fence is closed before the next |
| `TemplateFix.CutOfTexts` | scripts/fix_roadmap_drift.py:81-88 | section texts put together are cut where they were joined |
| `TemplateRebuild.SpanIsSection` | scripts/fix_roadmap_drift.py:76-81 | the lines between two heading positions are the section, those above the first the preamble |
| `TemplateRebuild.RebuildSections` | scripts/fix_roadmap_drift.py:54-88 | the rebuild over positions and spans equals the rebuild over sections |
| `TemplateComplete.RebuildCompletes` | scripts/fix_roadmap_drift.py:54-88 | with the last canonical section there, or the file ending its last line outside code, the rebuilt file's headings are exactly the canonical list |
| `TemplateComplete.RebuildKeepsSections` | scripts/fix_roadmap_drift.py:73-88 | each section that was there is there verbatim, but for the trailing newlines of a last one |
| `TemplateExact.RebuildKeepsText` | scripts/fix_roadmap_drift.py:73-88 | whatever the file ends in, the text of each of its sections stands in the rebuilt file, behind the old preamble |
| `TemplateSettles.RebuildSettlesIff` | scripts/fix_roadmap_drift.py:54-88 | for every file: a second rebuild changes nothing if and only if the first did nothing, or nothing could swallow a new section, or the file ended in an unfinished heading, whose longer name then keeps the fixer off |
| `TemplateSettles.GluedNameIsLonger` | scripts/fix_roadmap_drift.py:82-88 | an unfinished heading takes the next one into its own name |
| `TemplateExact.RebuildSwallows` | scripts/fix_roadmap_drift.py:82-88 | otherwise a new heading is swallowed by an open fence or an unfinished line |
| `TemplateExact.FixedIff` | scripts/fix_roadmap_drift.py:54-88 | for every file: the headings are canonical after the rebuild if and only if they were, or it acts and nothing can swallow a new section |
| `TemplateFields.DropUnknownFields` | scripts/fix_roadmap_drift.py:35-51 | the loop over the block's lines equals the filter |
| `TemplateFields.RowKeyIff` | scripts/check_roadmap_format.py:110-110 | a line is a row if and only if it is a key and a value between bars, then white space; its name is the shortest such key |
| `TemplateFields.KeptInOrder` | scripts/fix_roadmap_drift.py:40-48 | each line that is no unknown row is kept as often as it was there, in order |
| `TemplateFields.FlaggedIff` | scripts/check_roadmap_format.py:170-196 | after the fix the checker flags a row if and only if it did before and the fixer saw no unknown row at all |
| `TemplateFields.UnknownRowsGone` | scripts/fix_roadmap_drift.py:35-51 | in a block whose only line boundaries are newlines no unknown row is left |
| `TemplateFields.HiddenRow` | scripts/check_roadmap_format.py:110-110 | a row with a line separator inside is flagged and not removed |
| `TemplateFields.DropSettles` | scripts/fix_roadmap_drift.py:35-51 | dropping twice is dropping once, for every file |
| `TemplateFixer.DropKeepsHeadings` | scripts/fix_roadmap_drift.py:35-51 | dropping rows changes no heading, no fence, and not how the file ends |
| `TemplateFixer.FixHeadingsIff` | scripts/fix_roadmap_drift.py:91-100 | both fixes in a row leave the canonical headings under the same exact condition |
| `TemplateRows.BlockMoved` | scripts/check_roadmap_format.py:109-109 | a section put in between two parts of a text makes no block and breaks none |
| `TemplateRows.SeenMoved` | scripts/fix_roadmap_drift.py:35-51 | nor does it hide a row from the fixer or show it one |
| `TemplateFixed.RowsInsert` | scripts/check_roadmap_format.py:170-196 | of the rows the checker sees, those are left that do not run over its place |
| `TemplateFixed.FixedFieldsIff` | scripts/fix_roadmap_drift.py:91-100 | for every file, wherever its block stands: both fixes leave a flagged row if and only if the fixer saw no unknown row at all and one that the checker sees runs over no place where a section is put in |
| `TemplateTorn.TornRow` | scripts/check_roadmap_format.py:110-110 | a row over a heading that only the checker sees: dropping rows leaves it, and the section put in before that heading tears it |
| `TemplateFixed.FixedFieldsGone` | scripts/fix_roadmap_drift.py:91-100 | with newlines as the only line boundaries of the block, both fixes leave no flagged row |
| `TemplateFixed.FixSettlesIff` | scripts/fix_roadmap_drift.py:91-100 | for every file, fixing a fixed file changes nothing under the same exact condition as for the rebuild alone |
| `InlineComments.DropComments` | scripts/ja_register_check.py:183-197 | cutting from the last match back, in the masked copy and in the line, leaves what lies outside the comments |
| `InlineComments.MaskIs` | scripts/ja_register_check.py:189-189 | the copy has blanks exactly for the characters of code spans |
| `InlineComments.NoCommentStays` | scripts/ja_register_check.py:183-197 | a line that opens no comment outside code spans stays as it is |
| `InlineComments.CommentIsCut` | scripts/ja_register_check.py:183-197 | the first comment is cut out and nothing else: what stands before it stays, and what follows is left as it would be alone |
| `InlineComments.GapsAligned` | scripts/ja_register_check.py:189-192 | the same cuts keep the masked copy aligned with the line |
| `InlineComments.NoOpenerLeft` | scripts/ja_register_check.py:183-197 | what is left opens no comment outside code spans |
| `InlineComments.CommentTextMattersIff` | scripts/ja_register_check.py:183-197 | what a comment says is without effect on every line it can stand on if and only if the number of its backticks is even |
| `InlineComments.CommentTextIsIrrelevant` | scripts/ja_register_check.py:183-197 | two lines that differ only in what a comment says, its code spans closed in it, leave the same prose |
| `InlineComments.DroppedOpening` | scripts/ja_register_check.py:193-196 | a line whose last comment runs on leaves what stands before it, whatever the comment says |
| `InlineComments.BacktickHidesEnd` | scripts/ja_register_check.py:188-192 | of every comment that leaves a code span open, a backtick behind it hides the end: the line is cut where the comment opens |
| `ProseScanner.ClosesIff` | scripts/ja_register_check.py:156-160 | a fence closes exactly on a bare run of its own character, at least as long (section 4.5 of CommonMark) |
| `ProseScanner.FenceIff` | scripts/ja_register_check.py:98-98 | a fence opens with three backticks or tildes and as many more as follow |
| `ProseScanner.HeadingIs` | scripts/ja_register_check.py:89-89 | one to six hashes, then white space or nothing, are a heading whose title is what follows |
| `ProseScanner.HeadingOnly` | scripts/ja_register_check.py:89-89 | there is no other heading |
| `ProseScanner.BlockBuffer.Add` | scripts/ja_register_check.py:74-82 | appending a stripped segment with its line, and a space where two ASCII characters meet |
| `ProseScanner.Scanner.SkipVerbatim` | scripts/ja_register_check.py:150-171 | fences and comments are consumed as the specification says |
| `ProseScanner.Scanner.Take` | scripts/ja_register_check.py:125-144 | one line moves the scanner's fields as the specification moves the state |
| `ProseScanner.ScanLines` | scripts/ja_register_check.py:227-232 | the scanner's blocks are the specification's |
| `ProseFacts.StepMoves` | scripts/ja_register_check.py:150-181 | whether a line is prose, fenced or in a comment depends on nothing else the scanner knows |
| `ProseFacts.SameProseSameStep` | scripts/ja_register_check.py:125-197 | lines that differ only in fenced code, an info string, or what comments say have the same effect: comments that start the line, stand in it, run on, or end on it |
| `ProseFacts.VerbatimDoesNotInterfere` | scripts/ja_register_check.py:110-232 | files whose lines differ only so have the same blocks and line numbers |
| `ProseFacts.FencedCodeIsIgnored` | scripts/ja_register_check.py:156-168 | the same, for one fence and any two insides |
| `ProseFacts.CommentIsIgnored` | scripts/ja_register_check.py:150-181 | the same, for one comment over several lines that opens behind prose |
| `ProseLines.BlocksKnowTheirLines` | scripts/ja_register_check.py:68-82 | every character of every block has its line and comes from it; lines never go back, within blocks and across them |
| `ProseLines.PlainParagraph` | scripts/ja_register_check.py:125-144 | lines without markup make one block, in order |
| `ProseShape.InSomeIff` | scripts/ja_register_check.py:125-148 | over whole files: a line has characters in some block if and only if it is prose, neither blank nor structural, and belongs to no checklist item of a progress section |
| `ProseShape.ShareIff` | scripts/ja_register_check.py:125-171 | two such lines share a block if and only if no line behind the first, up to the second, is blank, structural, a list item's first, a fence's opening, or starts with a comment |
| `ProseShape.BlockIsLaid` | scripts/ja_register_check.py:74-82 | a block is made of what its lines give, each whole and in one piece, with a space exactly where two ASCII characters meet at a wrap |
| `ProseShape.ProseStands` | scripts/ja_register_check.py:125-144 | every line of prose but those of a checklist stands in some block, stripped and under its own number |
| `Sentences.Split` | scripts/ja_register_check.py:254-279 | the loop's sentences are the chunks between the cuts; tracked, its flag says that the backticks are even and no stretch to the end opens more brackets than it closes |
| `Sentences.SplitSentences` | scripts/ja_register_check.py:240-251 | a block is cut with tracking if and only if it closes its code spans and brackets in that sense |
| `SentenceFacts.CutIff` | scripts/ja_register_check.py:265-279 | a place is a cut if and only if it follows a mark outside brackets and code, and the emphasis behind it |
| `SentenceFacts.CutsAreOutside` | scripts/ja_register_check.py:265-279 | every cut is itself outside brackets and code |
| `Sentences.DepthIsWorst` | scripts/ja_register_check.py:265-271 | the tracked depth is the worst imbalance of any stretch up to here, the code flag the parity of backticks |
| `SentenceFacts.MarkIff` | scripts/ja_register_check.py:265-279 | when a terminal mark cuts, without the tracker's state |
| `SentenceFacts.EveryMarkCuts` | scripts/ja_register_check.py:248-251 | untracked, every terminal mark cuts |
| `SentenceFacts.SentenceIff` | scripts/ja_register_check.py:240-279 | a sentence is given if and only if it is that of a stretch between two ends of sentences with none inside, where a terminal mark ends one outside code and brackets, and everywhere in a block that leaves either open |
| `SentenceFacts.EmitPlaces` | scripts/ja_register_check.py:259-263 | a sentence stands in the block at the place whose line it carries, with only white space before it in its chunk |
| `SentenceFacts.NothingIsLost` | scripts/ja_register_check.py:254-279 | the sentences in order are the block's text, white space aside |
| `Trailing.StripTrailing` | scripts/ja_register_check.py:290-311 | the loop ends, each round on a shorter text, with the specification's core |
| `Trailing.CoreIs` | scripts/ja_register_check.py:290-311 | the core is a piece of the sentence, ends in no trailing mark and in no parenthetical that opens in it |
| `Trailing.CoreSettles` | scripts/ja_register_check.py:290-311 | a core has nothing more to strip |
| `Trailing.PlainIsCore` | scripts/ja_register_check.py:297-300 | a sentence that ends in neither a trailing mark nor a closing bracket is its own core |
| `Trailing.MarksAreDropped` | scripts/ja_register_check.py:297-298 | marks behind a sentence make no difference to its core |
| `Trailing.GroupIsDropped` | scripts/ja_register_check.py:301-309 | of a text that ends in a parenthetical, its brackets paired, the core is that of what stands before it, or of what the brackets hold where only spaces and emphasis stand before it |
| `Trailing.LoneCloserStays` | scripts/ja_register_check.py:301-311 | a closing bracket without its opening one stays, with everything before it |
| `Trailing.CoreCases` | scripts/ja_register_check.py:297-311 | these are all the cases |
| `RegisterCheck.FindCandidates` | scripts/ja_register_check.py:339-347 | the nested loops equal the composition of scan, split, strip and judgement |
| `RegisterCheck.CandidateIff` | scripts/ja_register_check.py:339-347 | the candidates are exactly the flagged sentences of the blocks |
| `RegisterCheck.CandidateHasItsLine` | scripts/ja_register_check.py:339-347 | a candidate's line holds the first character of its sentence |
| `RegisterCheck.CandidatesIgnoreVerbatim` | scripts/ja_register_check.py:339-347 | files whose lines differ only in such verbatim text have the same candidates |
| `Keitai.IsKeitai` | scripts/ja_register_check.py:317-336 | the sentence proper ends at one place, and the answer is whether a request form stands there, or a polite one followed by auxiliaries only |
| `Keitai.OnlyTheEndingCounts` | scripts/ja_register_check.py:333-336 | nothing before the last morpheme that is no auxiliary can change the answer |
| `Allowlist.Partition` | scripts/refresh_pr.py:102-117 | the changes are split, in order, by whether some pattern matches their path |
| `Allowlist.ClosedIff` | scripts/refresh_pr.py:102-117 | a pattern that matches a directory git reports matches everything below it if and only if its end says so (no slash, and no question marks but behind a star), or no such directory fits it |
| `Allowlist.PushedIsAllowed` | scripts/refresh_pr.py:263-265 | with such patterns every file in the pushed commit is matched by the allowlist, collapsed directories included |
| `Allowlist.OtherPatternsLeak` | scripts/refresh_pr.py:175-178 | with any other pattern alone some run, its directories as git reports them (no part `.`, `..` or `.git`), commits a file the allowlist does not match |
| `Globs.CssIff` | bajutsu/codegen/playwright.py:246-259 | for every id, the CSS operator chosen selects it if and only if the glob matches it |
| `Globs.MatchesIff` | bajutsu/codegen/playwright.py:246-259 | a glob matches if and only if the text can be cut into what the glob's characters stand for: any text, any one character, itself |
| `LocatorText.ReadsBackIff` | bajutsu/codegen/playwright.py:281-283 | the pasted selector is read as it was compiled if and only if the core holds no quote of either kind, no backslash, no line break, form feed or null |
| `LocatorText.JsUndoesEscape` | bajutsu/codegen/playwright.py:87-89 | the JavaScript string takes the CSS escapes away again, which is why an escaped core is misread |
| `LocatorText.CssMisreads` | bajutsu/codegen/playwright.py:259-259 | a core unsafe in a CSS string is never read back |
| `GlobRegex.RegexReads` | bajutsu/codegen/uiautomator.py:131-132 | the pattern's text is read as one item for each glob character |
| `GlobRegex.RegexIff` | bajutsu/codegen/uiautomator.py:123-132 | on ids without line breaks the pattern matches fully if and only if the glob matches the id or what follows a `:id/` prefix |
| `GlobRegex.AllGlobsAgreeIff` | bajutsu/codegen/uiautomator.py:123-132 | on an id every compiled glob and its pattern give one verdict if and only if the id has no line break |
| `KotlinText.EscapedIsCharByChar` | bajutsu/codegen/uiautomator.py:90-105 | the six replacements, one after the other over the whole text, escape each character by itself |
| `KotlinText.LiteralReadsBack` | bajutsu/codegen/uiautomator.py:90-105 | Kotlin reads the literal of any text as that text, and no further |
| `KotlinText.PatternReadsBack` | bajutsu/codegen/uiautomator.py:162-162 | the pattern compiled from a glob reaches the Kotlin program unchanged |
| `Cleanup.EmitGuard` | bajutsu/codegen/uiautomator.py:1000-1028 | the loop over the rules emits the `try` form; the TypeScript emitter's is the same |
| `Cleanup.EmitTeardown` | bajutsu/codegen/xcuitest.py:513-536 | the loop over the rules emits the teardown block |
| `Cleanup.GuardRuns` | bajutsu/codegen/playwright.py:610-638 | the guarded test takes the due steps in declaration order up to the first that fails, and ends with its error, else as the body did |
| `Cleanup.TeardownRuns` | bajutsu/codegen/xcuitest.py:513-536 | the teardown block takes every due step in order, and reports the body's failure and every failing step |
| `Cleanup.VerdictsAgree` | bajutsu/codegen/playwright.py:610-638 | all forms pass if and only if the body passed and no due step fails |
| `Cleanup.TracesAgreeIff` | bajutsu/codegen/xcuitest.py:513-536 | the forms take the same steps if and only if no due step but the last fails |
| `Cleanup.BodyFailureReported` | bajutsu/codegen/uiautomator.py:1000-1028 | the teardown block always reports a failed body, the guarded forms exactly when no due step fails |
| `RequestScan.EmittedScan` | bajutsu/codegen/playwright.py:205-222 | the emitted scan reaches the last matcher if and only if the matchers are met in order at increasing places |
| `RequestScan.RunnerScan` | bajutsu/common/assertions/evaluate/_functions.py:248-269 | the runner's scan, a loop over matchers, decides the same |
| `RequestScan.GreedyIsBest` | bajutsu/common/assertions/evaluate/_functions.py:251-256 | the greedy scan is never behind any other choice of places |
| `SlicedWait.WaitSliced` | bajutsu/codegen/uiautomator.py:933-960 | polls at least once, stops at the first poll that holds or ends at or past the deadline, and polls at most once for each slice begun |
| `SlicedWait.NeverBeyondBudget` | bajutsu/codegen/uiautomator.py:950-951 | no poll is asked for more than what is left of the budget |
| `WorkflowScan.JobScenarioMap` | scripts/e2e_changes.py:565-606 | the loop with its early exits equals the specification's run |
| `WorkflowScan.WorkflowIsRead` | scripts/e2e_changes.py:536-606 | a workflow in the supported forms is read exactly: each job with the scenarios it declares, pooled jobs left out |
| `WorkflowScan.ReadIffSupported` | scripts/e2e_changes.py:536-606 | the scan gives a map if and only if the lines are such a workflow, and raises for all others |
| `LaneSelection.AffectedOrFallback` | scripts/e2e_changes.py:742-764 | narrows exactly when the workflow is read and some job declares each changed scenario, and then to the jobs that exercise one |
| `LaneSelection.Decide` | scripts/e2e_changes.py:792-830 | a lane is skipped if and only if no changed path concerns it, and narrowed if and only if every path that does is a scenario attributed to a job; then the jobs are exactly those that exercise one |
| `LaneSelection.NeverUnderFires` | scripts/e2e_changes.py:742-764 | whatever is decided, every changed path that concerns the lane is exercised by a selected job, unless the whole lane fires |
| `Renaming.GitMv` | scripts/allocate_roadmap_ids.py:81-82 | to a free name; into a directory that has the name; onto nothing else |
| `Renaming.RenameNext` | scripts/allocate_roadmap_ids.py:106-108 | the next entry is where it was collected, and moves to its new name, or into the directory that has it, unless a file has it |
| `Renaming.RenameTree` | scripts/allocate_roadmap_ids.py:102-108 | the loop comes to its end if and only if no entry finds its new name taken by a file, and then each entry stands where its own and its directories' moves put it |
| `Renaming.AllRenamedIff` | scripts/allocate_roadmap_ids.py:102-108 | every component of every path is renamed, in its place, if and only if no two entries of a directory get one name |
| `Renaming.NextStands` | scripts/allocate_roadmap_ids.py:102-106 | deepest first, nothing above an entry still to be renamed has moved |
| `Renaming.MoveOne` | scripts/allocate_roadmap_ids.py:81-82 | one `git mv` takes every entry from its place with some entries done to its place with one more done, whether its name was free or a directory's |
| `Renaming.Allocate` | scripts/allocate_roadmap_ids.py:121-138 | the ids are the numbers above the largest used, one after the other, and none is used |
| `LogStream.PtyLines` | scripts/synthesis_stream_record.py:128-157 | whatever the chunks, the lines are those of the whole stream, without an empty last one |
| `LogStream.StreamLinesIff` | scripts/synthesis_stream_record.py:147-157 | the lines of a stream are those without a newline inside that make up the stream, a newline behind each but perhaps a last, unfinished one |
| `LogStream.PiecesConcat` | scripts/synthesis_stream_record.py:147-150 | the last piece of one part runs on into the first of the next |
| `LogStream.Inversions` | scripts/synthesis_stream_report.py:255-268 | one pass with a running maximum reports exactly the overtaken lines, once each, in order, with the largest gap |
| `SynthesisWindows.Windows` | scripts/synthesis_stream_report.py:220-242 | each key that begins has one window, from its first begin to its first end, whichever of them arrives first, in the order of the begins |
| `SynthesisWindows.WindowIff` | scripts/synthesis_stream_report.py:229-242 | a window is that of its key if and only if it begins with the first begin and ends with the first end or abort; it is aborted exactly if that is an abort, and open exactly if there is neither |
| `SynthesisWindows.BeginOrderIs` | scripts/synthesis_stream_report.py:239-241 | the keys with windows stand in the order of their first begins |
| `SynthesisWindows.OrderIsIrrelevantIff` | scripts/synthesis_stream_report.py:223-225 | the windows are the same for every order of arrival if and only if all begins of a key carry one time and all its ends one time and outcome |
| `SynthesisWindows.Attribute` | scripts/synthesis_stream_report.py:245-252 | a closed window around the drop that began last, the first of them in a tie; none exactly when no closed window is around it |
| `SynthesisWindows.AttributionIgnoresOrder` | scripts/synthesis_stream_report.py:245-252 | for every order of the windows a drop goes to one with the same begin, or to none |
| `SynthesisWindows.Distribute` | scripts/synthesis_stream_report.py:323-329 | the loop appends each drop to its window's list, in order, or to the unattributed ones |
| `SynthesisWindows.RoutedIff` | scripts/synthesis_stream_report.py:323-329 | a window has exactly the drops whose time falls to it, each as often as recorded |
| `SynthesisWindows.DropsAreConserved` | scripts/synthesis_stream_report.py:323-329 | every drop is counted once: the windows' lists and the unattributed drops together are the drops of the recording |
| `SessionLog.Load` | scripts/synthesis_stream_report.py:157-204 | the counters are those of the lines, a last line cut short aside; a session is unterminated if no `end` or `stopped` comes before the next start |
| `SessionLog.LinesAddUp` | scripts/synthesis_stream_report.py:157-204 | every line is an event kept, a bad line, or a record of a session |
| `SessionLog.SkippedAddUp` | scripts/synthesis_stream_report.py:178-181 | the skipped lines reported are those the recorder skipped in all its sessions |
| `SessionLog.Recorder.Record` | scripts/synthesis_stream_record.py:100-119 | one record for each event, in order, and how many were written and skipped |
| `SessionLog.Recorder.RecordSessions` | scripts/synthesis_stream_record.py:214-232 | the sessions one after the other, up to the first that was unproductive too long after the last productive one |
| `SessionLog.LogIsTidy` | scripts/synthesis_stream_record.py:193-232 | wherever the loop is interrupted, only the last session can be open, and every other start has its `end` |
| `SessionLog.ClosesFirstIff` | scripts/synthesis_stream_report.py:174-187 | what follows in the file closes a session first if and only if the next run that wrote a start or a stop was stopped before its first start |
| `SessionLog.UnterminatedIs` | scripts/synthesis_stream_report.py:174-187 | over every file of runs, stopped or killed anywhere: the sessions reported unterminated are exactly those a run was killed in, but for runs hidden by such a later run |
| `SessionLog.NoneUnterminated` | scripts/synthesis_stream_record.py:17-22 | where no run was killed outright, none is reported |
| `SessionLog.SessionsAddUp` | scripts/synthesis_stream_report.py:174-187 | every session is counted once as started, and once as ended unless its run was cut short in it |
| `SessionLog.StrayStopHides` | scripts/synthesis_stream_record.py:193-197 | a run stopped before its first start hides that the run before was killed |
| `SessionLog.TornRecordHides` | scripts/synthesis_stream_report.py:157-204 | when a kill cuts a record short and the next run's `start` runs on behind it, the reader finds one start fewer, one bad line more, and one unterminated session fewer if the kill left one open or nothing closes the one that was to start |
| `Cancellation.EventKeeps` | bajutsu/common/cancellation.py:138-167 | every signal, tick and undo step keeps the invariant between request, timer, handlers and phase |
| `Cancellation.ShutdownIsBounded` | bajutsu/common/cancellation.py:109-146 | over every run: armed at most once, the process kills itself only at first request plus grace plus margin, and no unfinished run outlives that |
| `Cancellation.SecondRequestIsIgnored` | bajutsu/common/cancellation.py:142-146 | a second request changes nothing |
| `Cancellation.LeavingDisarmsIff` | bajutsu/common/cancellation.py:164-167 | leaving restores both handlers, and leaves the timer disarmed if and only if the first `SIGTERM` of the run does not come after the disarming and before the restoring |
| `Cancellation.StrayAlarmIsLate` | bajutsu/common/cancellation.py:164-167 | the previous alarm handler is only ever met by such a run |
| `Cancellation.LateRequestKillsFinishedRun` | bajutsu/common/cancellation.py:164-167 | a run of events in which a finished run's process is killed by such a late request |

## Left out

- libcst parsing, rendering of import lines, file writes and the command line of `scripts/split_modules.py`: a module is a sequence of items with the names they bind, read and rebind.
- ImportCycles.RuntimeCycles: neighbours are visited in an arbitrary order, not in sorted order, so the theorems hold for every order and say nothing about which cycle comes first.
- PackageImport.PackageImportsIff: the lookups made at import are given, and are those the module made; annotations that a library resolves at run time although the module defers them, and items without a name that land in `__init__.py` and run there last, are not followed.
- The nesting limits of both JSON readers, and the `RangeError` and `RecursionError` of a very deep document: the stack is unbounded here.
- The shortest digits of a double and `Number(...)`: `FloatText.IsConversion` states what is used of them.
- The decoding of a URL's query and regular expressions in the dictionary matchers: parameters come decoded, and the search is any one function, although JavaScript and Python differ in the patterns they take.
- git itself, pull requests and the workflow environment of `scripts/refresh_pr.py`: in the protocol commits are ids with parents and a committer, and what a commit contains is the subject of `Allowlist` alone; renames and character classes in patterns are not modelled.
- TemplateFixed.FixedFieldsIff: stated, as `FixSettlesIff` is, for names and bodies of sections without `|` and `<`, which the template's are (`scripts/new_roadmap_item.py:87-98`).
- That the template's own constants meet `TemplateComplete.Canonical` and `TemplateFixed.Bland`; the other checks of `_check_file` (header link, title, required fields, tracking URL).
- The patterns of `scripts/ja_register_check.py` that look at one line without state (list items, tables, link definitions, HTML, the language switch, links and images): arbitrary functions of the line.
- ProseScanner.Block: the blocks in the scanner's list are values, so aliasing between the list and the block in hand is not modelled.
- The morphological analyzer: `RegisterCheck` takes any judgement of the core, `Keitai` any morphemes.
- The templates of the emitters, their `// TODO` branches and the selectors other than `idMatches`; alternations of several globs.
- LocatorText.ReadJs: of JavaScript's escapes only those the pasted text can contain are read, a backslash before a backslash or a quote.
- Cleanup.ExecRecording: a failed XCTest assertion is recorded and the next line runs, the framework's default; a body is an outcome, not a list of steps.
- SlicedWait.WaitSliced: the bound on the number of polls holds when a failed poll spends its slice; below API 34 there is no loop.
- The regular expressions of `scripts/e2e_changes.py`: a line comes with what the patterns see in it. The Makefile's recipes are a given map.
- Renaming.RenameTree: the renaming of a name is any function that settles after one application; the item's own directory, the rewriting of file contents, and what `git mv` does with untracked files and empty directories are not modelled.
- The percentiles, excerpts and rendering of the stream report; parsing of its lines: a line comes as what the reader finds in it.
- SessionLog.Recorder.RecordSessions: a session has one end time, where the loop reads the clock three times, and a record is written whole or not at all; what the reader makes of one cut short is `TornRecordHides`.
- Cancellation.ShutdownIsBounded: time is counted in whole ticks and a timer that has run out fires before the clock moves on; a handler that cannot be installed is not modelled.
