# FiCLI command dispatch, modelled in Dafny

FiCLI is a small Java library for interactive command-line programs.
Commands are registered with a dispatcher under a name. Each input line goes
first to three reserved strings:

- the list string (usually "?"), which prints the listing;
- the exit string, when exit is enabled;
- the back string, when back is enabled.

All three are compared by exact equality. Otherwise the line goes to the
first registered command whose name is a prefix of the line. That command
takes the rest of the line, split at single blanks, as its arguments.

This model covers two source trees:

- the current `fibrous` tree: `FiCLI`, `FiCommand`, `FiState`;
- the older `fiberous` tree:
  - its own `FiCLI` and `FiCommand` (no visibility flag);
  - `FiInputParser`, which answers with a `FiParserState` and drops an added name when it is not below any name already present;
  - `InputParser` with `Command`, which only appends and has no exit or back strings;
  - the two `NestedCommands` examples, whose `execute` runs a menu loop of its own.

The modules:

- `Text`: Java's `String.compareTo` over Dafny characters, the strict order it induces, and the runs of blanks used for alignment.
- `Tokenizer`: the prefix matcher and the `Scanner`-with-delimiter-" " split of the rest of the line.
- `Registry`: the three insertion disciplines on lists of names.
- `Dispatch`: the resolution order for one line.
- `Listing`: the padded and tab-separated listings.
- `States`: `FiState` codes, `FiParserState`, and how a menu loop ends.
- `Console`: the output stream, as a log of `print`/`println` chunks.
- `FibrousCommand`, `FiberousCommand`, `PlainCommand`: the command classes.
- `FibrousCLI`, `FiberousCLI`, `FiParser`, `PlainParser`: the dispatcher classes.
- `CliMenu`, `ParserMenu`: the two `NestedCommands` menus.

The dispatchers are classes whose methods update their fields. The command
list is a `seq` of command objects that the methods reassign.

The input line is a parameter of `processCommand`/`doCommand`. The menus take
their input lines as a finite sequence. Running a command is recorded by
appending its index to a ghost log `executed`, because what a command's
`execute` does is the library user's code.

The `Scanner` skips one delimiter before each token, so the argument text
" record x" gives `["record", "x"]` (`Dispatch.ShadowExample`,
`Tokenizer.TokExamples`). An empty token appears only where two blanks follow
each other, or where the text starts with two blanks.

## Model

| member | source | states |
|---|---|---|
| Text.CompareToZeroIffEqual | src/fibrous/fi/FiCLI.java:246-257 | `compareTo(..) == 0` holds exactly when the two strings are equal, so the reserved-string tests are exact, case-sensitive equality |
| Text.CompareToAntisymmetric | src/fibrous/fi/FiCLI.java:323-325 | swapping the operands of `compareTo` negates the result |
| Text.ProperPrefixIsLess | src/fibrous/fi/FiCLI.java:323-325 | a proper prefix of a name sorts strictly before it |
| Text.LessIrreflexive | src/fibrous/fi/FiCLI.java:323-325 | no name sorts strictly before itself |
| Text.LessAsymmetric | src/fibrous/fi/FiCLI.java:323-325 | two names are never each strictly before the other |
| Text.LessTotal | src/fibrous/fi/FiCLI.java:323-325 | any two distinct names are ordered one way or the other |
| Text.LessTransitive | src/fibrous/fi/FiCLI.java:323-325 | the order used for insertion is transitive |
| Text.LessThenNotGreater | src/fibrous/fi/FiCLI.java:323-325 | a name strictly below `a` is strictly below every `b` that is not below `a` |
| Text.Spaces | src/fibrous/fi/FiCLI.java:338-348 | the padding has exactly `n` characters, all blanks |
| Tokenizer.CompareToMatches | src/fibrous/fi/FiCommand.java:97-103 | the length check plus the `compareTo == 0` test on the cut-off line is exactly the prefix test `Matches` |
| Tokenizer.MatchesIffPrefix | src/fibrous/fi/FiCommand.java:97-103 | a name matches a line iff it is a prefix of the line; a line shorter than the name never matches |
| Tokenizer.TokStep | src/fibrous/fi/FiCommand.java:109-114 | one `hasNext`/`next` step yields the next token and leaves a strictly shorter rest |
| Tokenizer.Scan | src/fibrous/fi/FiCommand.java:104-116 | the `while (hasNext()) arguments.add(next())` loop collects exactly the tokens `Tok` of the argument text |
| Tokenizer.NoTokenHoldsBlank | src/fibrous/fi/FiCommand.java:104-114 | no argument ever contains the delimiter |
| Tokenizer.JoinTok | src/fibrous/fi/FiCommand.java:104-114 | putting one blank in front of each token and joining gives back any argument text that is empty, or starts with a blank and does not end with one |
| Tokenizer.TrailingBlankIgnored | src/fibrous/fi/FiCommand.java:104-114 | one trailing blank adds no argument |
| Tokenizer.TokAfterBlank | src/fibrous/fi/FiCommand.java:104-114 | a blank, then a blank-free word, then text starting at a blank yields that word first |
| Tokenizer.TokAtStart | src/fibrous/fi/FiCommand.java:104-114 | a word at the very start of the text is the first token |
| Tokenizer.TokExamples | src/fibrous/fi/FiCommand.java:104-114 | for any two blank-free words `a` and `b`: " a b" gives [a,b], " a  b" gives [a,"",b], "  a" gives ["",a], " a " gives [a], and "" gives [] |
| Tokenizer.NoWordBoundary | src/fibrous/fi/FiCommand.java:97-114 | "get" accepts "getx y" with arguments ["x","y"], accepts "get" with none, and rejects "ge" |
| Tokenizer.ExactNameNoArguments | src/fibrous/fi/FiCommand.java:97-114 | a line equal to the name matches and leaves no arguments |
| Registry.LessComesFirst | src/fibrous/fi/FiCLI.java:317-331 | in a sorted list a strictly smaller name sits at a smaller index |
| Registry.InsertionPoint | src/fibrous/fi/FiCLI.java:323-328 | the scan stops at the first name strictly greater than the new one, or at the end; no earlier name is greater |
| Registry.InsertAtShape | src/fibrous/fi/FiCLI.java:325 | `add(i, c)` gives one more element, with `c` at `i` and the old elements around it in order (same multiset plus `c`) |
| Registry.AfterInsertionPointGreater | src/fibrous/fi/FiCLI.java:323-328 | in a sorted list every name from the insertion point on is strictly greater than the new one |
| Registry.EqualNamesStayInFront | src/fibrous/fi/FiCLI.java:323-330 | names equal to the new one stay in front of it, so insertion is stable |
| Registry.InsertKeepsSorted | src/fibrous/fi/FiCLI.java:317-331 | sorted insertion keeps the list sorted |
| Registry.SortedAddExample | src/fibrous/fi/FiCLI.java:317-331 | adding "z", "a", "m" lists them as "a", "m", "z" |
| Registry.Widen | src/fibrous/fi/FiCLI.java:320-321 | `spacing` never shrinks and becomes at least the name's length plus five |
| Registry.SortedAddFits | src/fibrous/fi/FiCLI.java:317-331 | sorted insertion with widening keeps the list sorted and every name fitting, and the list grows by exactly one |
| Registry.DropAddDrops | src/fiberous/fi/FiInputParser.java:207-220 | the older insertion leaves the list unchanged iff the list is non-empty and no present name is strictly greater than the new one; otherwise it grows by one |
| Registry.DropAddVersusSortedAdd | src/fiberous/fi/FiInputParser.java:207-220 | the older insertion agrees with the sorted insertion iff the list is empty or some name is strictly greater; otherwise the sorted one appends where the older one drops |
| Registry.DropAddKeepsSorted | src/fiberous/fi/FiInputParser.java:207-220 | the older insertion keeps a sorted list sorted |
| Registry.DropAddExample | src/fiberous/fi/FiInputParser.java:207-220 | "z" then "a" keeps both, but "a" then "z" keeps only "a" |
| Dispatch.FirstMatch | src/fibrous/fi/FiCLI.java:259-266 | the command loop picks the first name whose matcher accepts the line, and none before it accepts |
| Dispatch.NoneMatchesStep | src/fibrous/fi/FiCLI.java:259-266 | a rejected name extends the rejected prefix of the list by one |
| Dispatch.FirstMatchFound | src/fibrous/fi/FiCLI.java:259-266 | the first accepting name after a rejected prefix is the one `FirstMatch` picks |
| Dispatch.NoneMatchesAll | src/fibrous/fi/FiCLI.java:259-266 | when every name rejects the line, `FirstMatch` is the length of the list |
| Dispatch.Resolve | src/fibrous/fi/FiCLI.java:246-269 | the list string wins; otherwise exit iff enabled and equal; otherwise back iff enabled and equal; otherwise the first accepting command runs; otherwise no match, with every outcome stated as an iff |
| Dispatch.ResolvedToCommands | src/fibrous/fi/FiCLI.java:259-269 | a line that is not reserved goes to the first accepting command, or to no match |
| Dispatch.ShorterPrefixShadows | src/fibrous/fi/FiCLI.java:259-266 | in a sorted list a command whose name has a shorter registered name as a proper prefix never runs |
| Dispatch.ShadowArgs | src/fibrous/fi/FiCommand.java:97-114 | "get" hands on ["record","x"] for the line "get record x" |
| Dispatch.ShadowExample | src/fibrous/fi/FiCLI.java:259-266 | with "get" and "get record" registered, "get record x" runs "get" with arguments ["record","x"] |
| Listing.VisibleOnly | src/fibrous/fi/FiCLI.java:301-310 | filtering never lists more entries than there are commands |
| Listing.VisibleOnlySnoc | src/fibrous/fi/FiCLI.java:301-310 | inspecting one more command adds its entry iff it is visible |
| Listing.VisibleOnlyFilter | src/fibrous/fi/FiCLI.java:301-310 | every listed entry is that of a visible command, and every visible command is listed |
| Listing.AllVisibleListed | src/fibrous/fi/FiCLI.java:301-310 | with every command visible, all of them are listed, in list order |
| Listing.PaddedLines | src/fibrous/fi/FiCLI.java:301-310 | one padded line per listed entry |
| Listing.TabLines | src/fiberous/fi/FiInputParser.java:198-200 | one tab-separated line per entry |
| Listing.PaddedListingAfter | src/fibrous/fi/FiCLI.java:290-311 | the padded listing is written in print order: header, controls, then command lines |
| Listing.TabListingAfter | src/fiberous/fi/FiInputParser.java:189-201 | the tab-separated listing is written in print order |
| Listing.PaddedLinesAt | src/fibrous/fi/FiCLI.java:301-310 | line `i` of the command part is the padded line of entry `i` |
| Listing.TabLinesAt | src/fiberous/fi/FiInputParser.java:198-200 | line `i` of the command part is the tab line of entry `i` |
| Listing.PaddedLinesSnoc | src/fibrous/fi/FiCLI.java:301-310 | listing one more entry adds its line at the end |
| Listing.TabLinesSnoc | src/fiberous/fi/FiInputParser.java:198-200 | listing one more entry adds its line at the end |
| Listing.PaddedListingShape | src/fibrous/fi/FiCLI.java:290-311 | the listing is the header, the exit line iff exit is enabled, the back line iff back is enabled, then the line of every listed entry in order |
| Listing.TabListingShape | src/fiberous/fi/FiInputParser.java:189-201 | the same shape for the tab-separated listing |
| Listing.PaddedLineAligned | src/fibrous/fi/FiCLI.java:338-348 | a name no wider than `spacing` is followed by blanks up to column `spacing`, where its description starts |
| Listing.PaddedLineWide | src/fibrous/fi/FiCLI.java:338-348 | a name at least `spacing` wide gets no padding |
| Listing.TabLineSplits | src/fiberous/fi/FiInputParser.java:193-199 | a tab line is the name, one tab, then the description |
| Console.Sink.constructor | src/fiberous/fi/FiOutputStream.java:8-11 | a new console has nothing written |
| Console.Sink.Print | src/fiberous/fi/FiOutputStream.java:9 | `print(s)` appends `s` |
| Console.Sink.Println | src/fiberous/fi/FiOutputStream.java:10 | `println(s)` appends `s` and a line break |
| States.StateCode | src/fibrous/fi/FiState.java:47-64 | VALID iff listed or a command ran, INVALID iff nothing matched, EXIT iff exit, BACK iff back |
| States.ParserState | src/fiberous/fi/FiParserState.java:8-10 | the same correspondence for the `FiParserState` enum |
| FibrousCommand.FiCommand.constructor | src/fibrous/fi/FiCommand.java:63-78 | name as given, no arguments, empty description, visible |
| FibrousCommand.FiCommand.IsCommand | src/fibrous/fi/FiCommand.java:91-121 | answers `Matches(name, line)`; the arguments become the tokens after the name, or nothing when the line is rejected |
| FibrousCommand.Items | src/fibrous/fi/FiCLI.java:301-310 | each command contributes its name, description and visibility, in list order |
| FibrousCommand.NamesInsertAt | src/fibrous/fi/FiCLI.java:325 | inserting a command at `i` inserts its name at `i` |
| FibrousCLI.FiCLI.constructor | src/fibrous/fi/FiCLI.java:47-77 | empty list, the given list string, exit "exit" on, back "back" off, the default descriptions, spacing 9, caret "> ", and the invariant holds |
| FibrousCLI.FiCLI.Default | src/fibrous/fi/FiCLI.java:96-101 | the same with the list string "?" |
| FibrousCLI.FiCLI.AddCommand | src/fibrous/fi/FiCLI.java:107-109 | the command goes in at the sorted insertion point, `spacing` widens, and the list stays sorted with every name fitting |
| FibrousCLI.FiCLI.SortAndAddCommand | src/fibrous/fi/FiCLI.java:317-331 | `spacing` widens for the name; the command goes before the first strictly greater name or at the end; the invariant is kept |
| FibrousCLI.FiCLI.Place | src/fibrous/fi/FiCLI.java:320-326 | with the insertion point found, `spacing` widens for the name, the command goes in at that point, and the invariant is kept |
| FibrousCLI.FiCLI.ValidAfterAdd | src/fibrous/fi/FiCLI.java:317-331 | sorted insertion with widening from a valid state gives a valid state |
| FibrousCLI.FiCLI.InsertionIndex | src/fibrous/fi/FiCLI.java:323-328 | the loop stops at the first strictly greater name, or at the end |
| FibrousCLI.FiCLI.ClearCommands | src/fibrous/fi/FiCLI.java:130-132 | the list becomes empty and the invariant holds |
| FibrousCLI.FiCLI.SetExitString | src/fibrous/fi/FiCLI.java:141-148 | sets the string, enables exit and widens `spacing` for it |
| FibrousCLI.FiCLI.SetBackString | src/fibrous/fi/FiCLI.java:158-165 | sets the string, enables back and widens `spacing` for it |
| FibrousCLI.FiCLI.AllowAdditionalStates | src/fibrous/fi/FiCLI.java:172-175 | overwrites both flags |
| FibrousCLI.FiCLI.SetExitDescription | src/fibrous/fi/FiCLI.java:181-183 | sets the exit description and nothing else |
| FibrousCLI.FiCLI.SetBackDescription | src/fibrous/fi/FiCLI.java:189-191 | sets the back description and nothing else |
| FibrousCLI.FiCLI.SetCaret | src/fibrous/fi/FiCLI.java:197-199 | sets the caret and nothing else |
| FibrousCLI.FiCLI.PrintCaret | src/fibrous/fi/FiCLI.java:212-214 | writes the caret once |
| FibrousCLI.FiCLI.NumOfCommands | src/fibrous/fi/FiCLI.java:275-277 | the number of registered commands |
| FibrousCLI.FiCLI.AddSpaces | src/fibrous/fi/FiCLI.java:338-348 | blanks from the end of the name up to column `spacing`, none when the name is wider |
| FibrousCLI.FiCLI.ListCommands | src/fibrous/fi/FiCLI.java:290-311 | writes exactly the padded listing of the controls and the visible commands |
| FibrousCLI.FiCLI.ListControls | src/fibrous/fi/FiCLI.java:291-299 | writes the header, then the exit and back lines when they are enabled |
| FibrousCLI.FiCLI.ListVisibleCommands | src/fibrous/fi/FiCLI.java:301-310 | writes one padded line per visible command, in list order, and skips hidden ones |
| FibrousCLI.FiCLI.ProcessCommand | src/fibrous/fi/FiCLI.java:239-270 | prints the caret, and the listing iff the line is the list string; returns the state code of `Resolve` with the line; runs only the resolved command; resets the arguments of exactly the commands inspected |
| FibrousCLI.FiCLI.Respond | src/fibrous/fi/FiCLI.java:245-269 | after the caret: the state code of `Resolve`, the listing iff the line is the list string, the run of only the resolved command, and the arguments of exactly the inspected commands reset |
| FibrousCLI.FiCLI.RunCommands | src/fibrous/fi/FiCLI.java:259-269 | on a line that is not reserved, the result and the runs follow `Resolve` |
| FibrousCLI.FiCLI.TryCommands | src/fibrous/fi/FiCLI.java:259-269 | runs the first accepting command and answers VALID, or answers INVALID; only commands up to it are inspected |
| FibrousCLI.FiCLI.FirstAccepting | src/fibrous/fi/FiCLI.java:259-266 | the loop stops at the first command whose matcher accepts the line (`FirstMatch`), or at the end; the commands up to and including it have their arguments reset and the rest are untouched |
| FiberousCommand.FiCommand.constructor | src/fiberous/fi/FiCommand.java:27-32 | name as given, no arguments |
| FiberousCommand.FiCommand.IsCommand | src/fiberous/fi/FiCommand.java:45-75 | answers `Matches(name, line)`; the arguments become the tokens after the name, or nothing |
| FiberousCommand.NamesInsertAt | src/fiberous/fi/FiCLI.java:261 | inserting a command at `i` inserts its name at `i` |
| FiberousCommand.NamesInsertOrDrop | src/fiberous/fi/FiInputParser.java:207-220 | the older insertion on commands is the older insertion on their names |
| FiberousCommand.Entries | src/fiberous/fi/FiCLI.java:244-246 | one entry per command with its name and description, in list order |
| FiberousCLI.FiCLI.constructor | src/fiberous/fi/FiCLI.java:16-45 | empty list, the given list string, exit on, back off, the default descriptions, spacing 9, caret "> " |
| FiberousCLI.FiCLI.Default | src/fiberous/fi/FiCLI.java:61-65 | the same with the list string "?" |
| FiberousCLI.FiCLI.AddCommand | src/fiberous/fi/FiCLI.java:71-73 | sorted insertion with widening; the invariant is kept |
| FiberousCLI.FiCLI.SortAndAddCommand | src/fiberous/fi/FiCLI.java:253-267 | `spacing` widens; the command goes before the first strictly greater name or at the end |
| FiberousCLI.FiCLI.Place | src/fiberous/fi/FiCLI.java:256-262 | with the insertion point found, `spacing` widens, the command goes in at that point, and the invariant is kept |
| FiberousCLI.FiCLI.ValidAfterAdd | src/fiberous/fi/FiCLI.java:253-267 | sorted insertion with widening from a valid state gives a valid state |
| FiberousCLI.FiCLI.InsertionIndex | src/fiberous/fi/FiCLI.java:259-264 | the first strictly greater name, or the end |
| FiberousCLI.FiCLI.ClearCommands | src/fiberous/fi/FiCLI.java:94-96 | the list becomes empty |
| FiberousCLI.FiCLI.SetExitString | src/fiberous/fi/FiCLI.java:105-112 | sets the string, enables exit, widens `spacing` |
| FiberousCLI.FiCLI.SetBackString | src/fiberous/fi/FiCLI.java:122-129 | sets the string, enables back, widens `spacing` |
| FiberousCLI.FiCLI.AllowAdditionalStates | src/fiberous/fi/FiCLI.java:136-139 | overwrites both flags |
| FiberousCLI.FiCLI.SetExitDescription | src/fiberous/fi/FiCLI.java:145-147 | sets the exit description |
| FiberousCLI.FiCLI.SetBackDescription | src/fiberous/fi/FiCLI.java:153-155 | sets the back description |
| FiberousCLI.FiCLI.SetCaret | src/fiberous/fi/FiCLI.java:161-163 | sets the caret |
| FiberousCLI.FiCLI.PrintCaret | src/fiberous/fi/FiCLI.java:190 | writes the caret once, as `processCommand` does first |
| FiberousCLI.FiCLI.NumOfCommands | src/fiberous/fi/FiCLI.java:225-227 | the number of registered commands |
| FiberousCLI.FiCLI.AddSpaces | src/fiberous/fi/FiCLI.java:274-284 | blanks up to column `spacing`, none when the name is wider |
| FiberousCLI.FiCLI.ListCommands | src/fiberous/fi/FiCLI.java:233-247 | writes exactly the padded listing of the controls and of every command |
| FiberousCLI.FiCLI.ListControls | src/fiberous/fi/FiCLI.java:234-242 | header, then the exit and back lines when enabled |
| FiberousCLI.FiCLI.ListAllCommands | src/fiberous/fi/FiCLI.java:244-246 | one padded line per command, in list order |
| FiberousCLI.FiCLI.ProcessCommand | src/fiberous/fi/FiCLI.java:188-219 | caret, then the `Resolve` order; state code and line; only the resolved command runs; the arguments of exactly the inspected commands are reset |
| FiberousCLI.FiCLI.Respond | src/fiberous/fi/FiCLI.java:194-218 | after the caret: the `Resolve` order, its state code, the listing iff list string, only the resolved command runs, and the arguments of exactly the inspected commands are reset |
| FiberousCLI.FiCLI.RunCommands | src/fiberous/fi/FiCLI.java:208-218 | on a line that is not reserved, the result follows `Resolve` |
| FiberousCLI.FiCLI.TryCommands | src/fiberous/fi/FiCLI.java:208-218 | the first accepting command runs (VALID), else INVALID |
| FiberousCLI.FiCLI.FirstAccepting | src/fiberous/fi/FiCLI.java:208-215 | the loop stops at `FirstMatch` of the names, or at the end; exactly the inspected commands have their arguments reset |
| PlainCommand.Command.constructor | src/fiberous/fi/Command.java:26-31 | name as given, no arguments |
| PlainCommand.Command.Execute | src/fiberous/fi/Command.java:36 | the default `execute` changes nothing |
| PlainCommand.Command.IsCommand | src/fiberous/fi/Command.java:44-73 | answers `Matches(name, line)`; the arguments become the tokens after the name, or nothing |
| PlainCommand.Entries | src/fiberous/fi/InputParser.java:98-100 | one entry per command with its name and description |
| PlainParser.InputParser.constructor | src/fiberous/fi/InputParser.java:15-27 | empty list, the given list string and stream |
| PlainParser.InputParser.AddCommand | src/fiberous/fi/InputParser.java:33-35 | appends the command, unsorted; the names grow by its name at the end |
| PlainParser.InputParser.ClearCommands | src/fiberous/fi/InputParser.java:56-58 | the list becomes empty |
| PlainParser.InputParser.NumOfCommands | src/fiberous/fi/InputParser.java:91-93 | the number of registered commands |
| PlainParser.InputParser.ListCommands | src/fiberous/fi/InputParser.java:95-101 | writes the header and one tab line per command, and no control lines |
| PlainParser.InputParser.ListAllCommands | src/fiberous/fi/InputParser.java:98-100 | one tab line per command, in list order |
| PlainParser.InputParser.DoCommand | src/fiberous/fi/InputParser.java:66-85 | true iff the line is the list string or some command accepts it; lists iff list string; runs only the first accepting command |
| PlainParser.InputParser.TryCommands | src/fiberous/fi/InputParser.java:74-84 | the first accepting command runs and the answer is true, else false |
| PlainParser.InputParser.FirstAccepting | src/fiberous/fi/InputParser.java:74-81 | the loop stops at `FirstMatch` of the names, or at the end; exactly the inspected commands have their arguments reset |
| FiParser.FiInputParser.constructor | src/fiberous/fi/FiInputParser.java:16-39 | empty list, the given list string, exit on, back off, the default descriptions |
| FiParser.FiInputParser.Default | src/fiberous/fi/FiInputParser.java:54-58 | the same with the list string "?" |
| FiParser.FiInputParser.AddCommand | src/fiberous/fi/FiInputParser.java:64-66 | the older insertion; the list stays sorted |
| FiParser.FiInputParser.SortAndAddCommand | src/fiberous/fi/FiInputParser.java:207-220 | an empty list takes the command; otherwise it goes before the first strictly greater name, and is dropped when there is none; sortedness is kept |
| FiParser.FiInputParser.Place | src/fiberous/fi/FiInputParser.java:214-217 | `add(i, c)` at the insertion point found: the names become the sorted insertion of the new name, and sortedness is kept |
| FiParser.FiInputParser.InsertionIndex | src/fiberous/fi/FiInputParser.java:214-219 | the first strictly greater name, or the end |
| FiParser.FiInputParser.ClearCommands | src/fiberous/fi/FiInputParser.java:87-89 | the list becomes empty |
| FiParser.FiInputParser.SetExitString | src/fiberous/fi/FiInputParser.java:98-101 | sets the string and enables exit |
| FiParser.FiInputParser.SetBackString | src/fiberous/fi/FiInputParser.java:111-114 | sets the string and enables back |
| FiParser.FiInputParser.AllowAdditionalStates | src/fiberous/fi/FiInputParser.java:121-124 | overwrites both flags |
| FiParser.FiInputParser.SetExitDescription | src/fiberous/fi/FiInputParser.java:130-132 | sets the exit description |
| FiParser.FiInputParser.SetBackDescription | src/fiberous/fi/FiInputParser.java:138-140 | sets the back description |
| FiParser.FiInputParser.NumOfCommands | src/fiberous/fi/FiInputParser.java:181-183 | the number of registered commands |
| FiParser.FiInputParser.ListCommands | src/fiberous/fi/FiInputParser.java:189-201 | writes exactly the tab-separated listing |
| FiParser.FiInputParser.ListControls | src/fiberous/fi/FiInputParser.java:190-196 | header, then the exit and back tab lines when enabled |
| FiParser.FiInputParser.ListAllCommands | src/fiberous/fi/FiInputParser.java:198-200 | one tab line per command, in list order |
| FiParser.FiInputParser.DoCommand | src/fiberous/fi/FiInputParser.java:148-175 | the `FiParserState` of `Resolve`; lists iff list string; only the resolved command runs; the arguments of exactly the inspected commands are reset |
| FiParser.FiInputParser.RunCommands | src/fiberous/fi/FiInputParser.java:164-174 | on a line that is not reserved, the result follows `Resolve` |
| FiParser.FiInputParser.TryCommands | src/fiberous/fi/FiInputParser.java:164-171 | the first accepting command runs, and whether one ran |
| FiParser.FiInputParser.FirstAccepting | src/fiberous/fi/FiInputParser.java:164-171 | the loop stops at `FirstMatch` of the names, or at the end; exactly the inspected commands have their arguments reset |
| CliMenu.MenuResolution | src/fiberous/example/NestedCommands.java:24-31 | in the menu "?" lists, "back" goes back, a line starting with "add" runs it, and nothing is ever an exit |
| CliMenu.BackAt | src/fiberous/example/NestedCommands.java:33-38 | the first "back" in the input, or its end |
| CliMenu.ReadyResolves | src/fiberous/example/NestedCommands.java:24-31 | the dispatcher as set up resolves and lists as the menu functions say |
| CliMenu.NewNestedCommands | src/fiberous/example/NestedCommands.java:14-18 | a command with the given name and the menu's description |
| CliMenu.AddFirst | src/fiberous/example/NestedCommands.java:30 | registering "add" on the empty dispatcher gives the one-command list and leaves `spacing` at 9 |
| CliMenu.NewMenu | src/fiberous/example/NestedCommands.java:24-31 | a fresh `FiCLI` with exit off, back on, "add" registered and the caret "Menu > " |
| CliMenu.Step | src/fiberous/example/NestedCommands.java:34-41 | one dispatch; the output is the caret, the listing for "?", and the complaint for an INVALID line |
| CliMenu.Execute | src/fiberous/example/NestedCommands.java:21-43 | returns iff a "back" comes; consumes the lines up to it (or all); writes their transcript (plus a last caret when input runs out); runs "add" for each accepting line |
| CliMenu.Loop | src/fiberous/example/NestedCommands.java:33-42 | the loop on a ready dispatcher, with the same outcome, transcript and runs |
| CliMenu.ExitIsInvalidHere | src/fiberous/example/NestedCommands.java:28-41 | "exit" is an INVALID line in this menu and is complained about |
| CliMenu.ExitNoMatch | src/fiberous/example/NestedCommands.java:24-31 | with exit off and only "add" registered, "exit" resolves to no match |
| CliMenu.MenuListingLines | src/fiberous/example/NestedCommands.java:24-31 | the listing is the header, "back" and "add", each aligned at column 9 |
| ParserMenu.MenuResolution | src/fiberous/fi/example/NestedCommands.java:27-32 | "?" lists, "exit" exits, "back" goes back, a line starting with "add" runs it |
| ParserMenu.StopAt | src/fiberous/fi/example/NestedCommands.java:34-48 | the first "exit" or "back", or the end |
| ParserMenu.ReadyResolves | src/fiberous/fi/example/NestedCommands.java:27-32 | the parser as set up resolves and lists as the menu functions say |
| ParserMenu.NewAddCommand | src/fiberous/fi/example/AddCommand.java:12-16 | a command with the given name and the usage line as its description |
| ParserMenu.NewNestedCommands | src/fiberous/fi/example/NestedCommands.java:18-23 | a command with the given name and the menu's description |
| ParserMenu.NewMenu | src/fiberous/fi/example/NestedCommands.java:27-32 | a fresh `FiInputParser("?")` with exit and back on and "add" registered |
| ParserMenu.Step | src/fiberous/fi/example/NestedCommands.java:35-47 | the prompt, one dispatch, and "Invalid command" for an INVALID line |
| ParserMenu.Answer | src/fiberous/fi/example/NestedCommands.java:37-47 | after the prompt: the `FiParserState` of the menu's resolution, the listing for "?", "Invalid command" exactly for an INVALID line, and "add" run exactly for the lines it accepts |
| ParserMenu.Execute | src/fiberous/fi/example/NestedCommands.java:26-49 | the session exits iff the first stop line is "exit", returns iff it is "back", and waits iff there is none; the lines up to the stop are consumed, with their transcript and runs |
| ParserMenu.Loop | src/fiberous/fi/example/NestedCommands.java:34-48 | the loop on a ready parser, with the same outcome, transcript and runs |
| ParserMenu.MenuListingLines | src/fiberous/fi/example/NestedCommands.java:27-32 | the listing is the header and the exit, back and "add" tab lines, in that order |

## Left out

- `setCommands`, `getCommands`, `getCaret` and `getListCommandsString` are left out. They hand the list or a field out and back in, so the caller could mutate or alias it. The model keeps the list as a value owned by the dispatcher.
- `setInput`, `setOutput`, and the `FiInputStream`/`FiSystemIn` readers are left out. The line read by `processCommand` is a parameter, and the menus take a finite sequence of lines.
- The constructors that only choose the standard streams (`FiCLI(String)`, `FiInputParser(String)`) are modelled by the constructor that takes a stream.
- All output goes to one `Console.Sink`, which stands for both the dispatcher's stream and `System.out`. Character encoding and flushing are not modelled.
- What a command's `execute` does is user code. A run is recorded as the command's index in the ghost log `executed`. The printing of the example `AddCommand`, `DisplayCommand`, `ArgTestCommand` and `ExitCommand` is left out.
- The `AddCommand` class used by src/fiberous/example/NestedCommands.java is not part of this model. `CliMenu` takes its description as a parameter.
- `System.exit` in the `fiberous.fi` menu is the terminal outcome `SessionExit`; the process is not modelled.
- A menu whose input runs out before "back" (or "exit") ends as `InputExhausted` after printing its last prompt. In the Java program the next read is `Scanner.nextLine()` (through `FiSystemIn.readLine` in src/fiberous/example/NestedCommands.java, directly in src/fiberous/fi/example/NestedCommands.java), which throws an uncaught `NoSuchElementException` at end of input, or never returns on a live terminal; `InputExhausted` stands for either.
- Strings are sequences of Dafny characters, which are Unicode scalar values, where Java's are UTF-16 code units. For names with characters outside the Basic Multilingual Plane the model's `compareTo` order (`Text.CompareTo`, and with it `Registry.SortedAdd`) can differ from Java's, and the lengths behind `Widen`, `Pad`/`AddSpaces` and the length test of `Matches` count such a character once where Java counts two.
- `scanner.close()` is left out.
- The `ExampleCLI`, `TestCLI` and `HiddenCommand` example programs are left out. They are `main` loops that only wire up commands.

## Findings

| source | as written | input that shows it | evidently intended | confidence | as-written member | corrected member |
|---|---|---|---|---|---|---|
| src/fiberous/fi/FiInputParser.java:207-220 | when the list is non-empty and no present name is strictly greater than the new one, the loop ends without adding the command | `addCommand("a")` then `addCommand("z")`: "z" is silently not registered, and "z" lines are INVALID | append the command at the end, as the later `FiCLI.sortAndAddCommand` does | high, not executed | Registry.DropAddVersusSortedAdd | Registry.SortedAddFits |

`FiParser.FiInputParser` keeps the code as written, because the older parser is modelled as it is. The `FiCLI` models use the corrected insertion `Registry.SortedAdd`. Two lemmas are proved about it:

- `Registry.SortedAddFits`: the list stays sorted and grows by exactly one.
- `Registry.DropAddVersusSortedAdd`: it differs from the older insertion exactly in the drop case.
