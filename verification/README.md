# Verified models of the vendored test, option and logging libraries

This project models the parts of three header libraries under `extlib/` that hold real state machines, and proves
what they are for.

* **Catch** (`extlib/catch.hpp`): the section scheduler that runs a test body over and over until every section has
  run; the test specification parser; the counting of assertions and test cases; the bar of totals; the wrapping of
  text into columns; the XML writer and reporter; the token stream and parser for command lines.
* **ezOptionParser** (`extlib/ezOptionParser.hpp`): splitting delimited lists, cutting a command line into arguments,
  sorting arguments into options, and exporting options as text and importing them again.
* **Easylogging++** (`extlib/easylogging++.h`, `extlib/easylogging++.cc`): configurations with a global level and
  the maps built from them, hit counters, wildcard matching.

## How it is built

Objects that the program updates in place are classes whose methods are proved against functions on values; what the
program promises is then proved about those functions.

| part | values and proofs | objects |
|---|---|---|
| section scheduler | `SectionPlan`, `CycleStates`, `TrackerMachine`, `TrackerTrees`, `TrackerProofs`, `TestRunProofs`, `TrackerProgress`, `PlanProperties`, `RunReports`, `RunReportProofs` | `TrackerObjects`, `TestRunner` |
| test specifications | `TestSpecs`, `TestSpecRoundTrip`, `TestSpecEscapes` | `TestSpecParsers` |
| configurations | `Configs`, `ConfigValues`, `TypedConfigs` | `LogConfigurations` |
| hit counters | `HitCounters` | `HitCounterRegistry` |
| options | `DelimitedLists`, `CommandLines`, `WrittenArguments`, `OptionRoles`, `OptionExports`, `OptionLoneFlags`, `OptionImports`, `QuotedComments`, `SafeLines`, `OptionRoundTrips`, `OptionImportTrips` | `OptionParsers` |
| command line parser | `CommandLineParsers`, `CommandLineOutcomes` | `TokenStreams` |
| counting and reports | `RunTotals`, `TotalsBars`, `TextColumns` (with their objects), `XmlReports`, `XmlDetails`, `ReportedRuns` | `XmlWriters`, `XmlReporters` |

The scheduler is proved in three layers. `TrackerObjects` and `TestRunner` have trackers that point to one another.
`TrackerMachine` has the same trackers as numbered cells; a ghost field `view` ties the objects to the cells. The
proofs read a tree (`TrackerProofs.Tree`) off the cells and show that each cycle takes exactly the first element off
`TrackerTrees.Left`, the list of cycles a tree still needs. `SectionPlan` says what that list is for a test that has
not started, as a recursion over the sections alone, and `PlanProperties` says what it means for the leaves.
`RunReports.ToldInTest` says in the same way what a reporter is told, and `ReportedRuns` that the XML reporter makes a
well-formed document of it that shows the same sections.

Where a function is what a method is proved against, the results about it are stated without it: by what was printed,
written or told, and with the characters, names and limits of the source written out.

## Results that differ from what one would expect

* A section that throws after its leaves is complete at once. If a leaf behind the first one has not run by then, it
  never does. `PlanProperties.EveryLeafOnce` gives the exact condition, `PlanProperties.SecondLeafIsLost` an example.
* Sections that one exception leaves are reported to end with the outermost first, against the order of nesting.
  `RunReports.TestNests` says when all reports of a test are nested by name, `RunReports.OuterEndsFirst` is an example.
* A level whose value is that of the first level set for the type loses it in the built maps if the global value comes
  later and is another: `TypedConfigs.MapAnswersEntry` for each entry of a list, `TypedConfigs.BuildCorrect` for all of
  them at once; `TypedConfigs.DisabledButEnabled` is an example.
* `setFromBase` copies faithfully if and only if no global entry comes late with another value: `Configs.CopyFaithful`.
  `Configs.FirstLevelNotCopied` gives the settings that lead there, `Configs.DisabledIsNotCopied` an example.
* `validateEveryN` answers every call rightly for n up to 100000 only: `HitCounters.EveryNExactly`, and
  `HitCounters.SomeAnswerIsWrong` for the runs in which it does not.
* What is exported is read back exactly if every set group has arguments, and last arguments are not mistaken for first
  ones for want of a set group: `OptionRoundTrips.ExportRoundTrip`, with `OptionRoundTrips.SetFlagIsLost` and
  `OptionRoundTrips.LastArgumentMoves` as examples.
* A comment behind a string in double quotes is not all that is cut if the string holds the comment character and the
  comment holds a single quote: then the line is cut inside the string. `QuotedComments.CommentBehindQuotes` is exact,
  `QuotedComments.ApostropheCuts` an example.
* The text of a warning is missing from an XML report that does not include successful assertions, although the reporter
  does not drop the assertion: `XmlDetails.WarningIsLost`.
* The run context's own totals can count a failed test case without a failed assertion: `RunTotals.ContextMisses`, and
  `RunTotals.UnexpectedPassIsMissed` for an example.
* A column with an indent can print text twice: `TextColumns.PrintsSegment`, `TextColumns.IndentRepeats`. A column with
  room for one character only may never come to its end: `TextColumns.EndsExactly`, `TextColumns.SecondWordNeverEnds`.
  A text that starts with a line end is not printed at all: `TextColumns.WideColumns`, `TextColumns.DroppedExactly`,
  `TextColumns.TextIsDropped`.
* `XmlReporter::sectionEnded` and `testCaseEnded` end two elements: the results, and by the scope of the results the
  section or test case itself.

## Model

| member | source | states |
|---|---|---|
| `TestRunner.RunContext.RunTest` | extlib/catch.hpp:7703-7722 | for any tree of sections told apart by name and location, throwing or not, the re-run loop ends without internal error, with no section left active or unfinished, and what each cycle has reported, starts and ends, is exactly what is told of the planned cycle |
| `TestRunProofs.TestCycle` | extlib/catch.hpp:7718-7722 | one cycle takes exactly the first cycle off those that are left, and the tracker is successfully complete exactly when none is left; this is why the loop ends |
| `TrackerProgress.CycleAdvances` | extlib/catch.hpp:9145-9209 | every cycle makes some tracker complete that was not, and no tracker that is complete ever leaves that state |
| `TestRunProofs.AtStart` | extlib/catch.hpp:7715-7717 | at the start of a test what is left is the whole plan |
| `TrackerProofs.SectionCycle` | extlib/catch.hpp:7773-7821 | entering a section, running its body and leaving it takes one cycle off what is left of its tracker, keeps the trackers elsewhere, the order of its children and the active sections as the open chain, and ends at the parent with the cycle completed |
| `TrackerProofs.BodyCycle` | extlib/catch.hpp:9225-9246 | the same for the body of an open section: complete children are skipped, one child is entered, and the ones behind it are only discovered |
| `TrackerProofs.EnterKid` | extlib/catch.hpp:9156-9161 | entering a child leaves the active sections as exactly the chain of open trackers down to the current one |
| `TrackerProofs.LastChildDecides` | extlib/catch.hpp:9176-9179 | asking the last child only is right: it is complete exactly if nothing is left of any child |
| `TrackerTrees.LastDecides` | extlib/catch.hpp:9176-9179 | with children in order, complete ones before the one that is started before the rest, the last child is complete exactly if all are |
| `TrackerProofs.IdleStep` | extlib/catch.hpp:9234-9239 | once the cycle is completed a section that is reached is found or added, but not opened |
| `PlanProperties.EveryLeafOnce` | extlib/catch.hpp:7813-7821 | no leaf is visited twice, and every leaf is visited once if and only if every throwing section is held up until its leaves have run |
| `PlanProperties.TestEnters` | extlib/catch.hpp:9192-9201 | the leaves that are entered are some of the test's leaves, all of them exactly if the test is exhaustive |
| `PlanProperties.OnePathPerCycle` | extlib/catch.hpp:7718-7722 | if nothing throws, the cycles are the paths to the leaves, one each, in the order of the body |
| `PlanProperties.LeavesMayThrow` | extlib/catch.hpp:7813-7821 | leaves that throw never keep another leaf from running |
| `PlanProperties.CyclesBounded` | extlib/catch.hpp:7718-7722 | there are never more cycles than sections |
| `PlanProperties.SecondLeafIsLost` | extlib/catch.hpp:9192-9201 | a section with two leaves that throws at its end never runs the second one |
| `SectionPlan.PlanEnd` | extlib/catch.hpp:7942-7967 | every section needs a cycle, and its last one throws exactly if the section itself does |
| `TrackerObjects.Tracker.Close` | extlib/catch.hpp:9163-9191 | closing a tracker does to the objects what it does to the numbered cells, including the closing of trackers still open below it and the internal error in an illogical state |
| `TrackerObjects.Tracker.Fail` | extlib/catch.hpp:9192-9201 | failing marks the tracker failed and its parent as needing another run, and completes the cycle |
| `TrackerObjects.Tracker.Open` | extlib/catch.hpp:9145-9161 | opening makes a tracker current and marks all its ancestors as executing children |
| `TrackerObjects.Tracker.FindChild` | extlib/catch.hpp:9134-9139 | the first child with the name and location is found, or none |
| `TrackerObjects.Tracker.AddChild` | extlib/catch.hpp:9130-9132 | a new tracker is appended to the children, and nothing else changes |
| `TrackerObjects.TrackerContext.Acquire` | extlib/catch.hpp:9225-9246 | a tracker is found or made, and opened if the cycle is not completed and it is not complete |
| `TestRunner.RunContext.SectionStarted` | extlib/catch.hpp:7773-7788 | a section is included if its tracker is open, and becomes active |
| `TestRunner.RunContext.SectionEndedEarly` | extlib/catch.hpp:7813-7821 | the innermost section that an exception leaves fails, the others are closed |
| `TestRunner.RunContext.RunCurrentTest` | extlib/catch.hpp:7907-7950 | the test case's own exception is caught, its tracker is closed, and unfinished sections are ended |
| `TestRunner.RunContext.HandleUnfinishedSections` | extlib/catch.hpp:7958-7967 | what an exception left is ended and reported in reverse order, and nothing stays unfinished |
| `RunReportProofs.CycleTold` | extlib/catch.hpp:7907-7950 | the reports that the machine makes in a cycle are those told of the next path of the plan, read off the sections alone |
| `RunReportProofs.BodyTold` | extlib/catch.hpp:7773-7821 | in the body of a section each section on the path starts and, unless an exception leaves it, ends behind what is in it; nothing else is reported |
| `RunReports.TestNames` | extlib/catch.hpp:7907-7967 | each cycle starts exactly the sections on its path in order, ends every one of them once, and is balanced by number, whatever throws |
| `RunReports.TestNests` | extlib/catch.hpp:7958-7967 | all ends are nested by name if and only if the names that an exception leaves always read the same both ways |
| `RunReports.OuterEndsFirst` | extlib/catch.hpp:7958-7967 | an example: the outer section is reported to end before the inner one |
| `ReportedRuns.RunNested` | extlib/catch.hpp:8144-8169 | the events of any run of any tests, with assertions in between, are a nested stream as the XML reporter expects it |
| `ReportedRuns.ReportRun` | extlib/catch.hpp:11509-11674 | so the XML report of every run is a whole well-formed document: its elements are the run, the group and every test with exactly the sections that all of its cycles start and end, and it has the results, totals and details of all events in order |
| `ReportedRuns.RunIsShown` | extlib/catch.hpp:11509-11548 | what the events of a run add up to as elements are the sections in the plans of its tests, whatever throws |
| `TestSpecRoundTrip.RoundTrip` | extlib/catch.hpp:9403-9470 | printing a list of filters and parsing it gives exactly that list, if and only if no text begins with `exclude:`; names are printed as they are with enough escapes, or in quotes, tags in brackets, each with blanks and `~` in front |
| `TestSpecRoundTrip.ParsePrinted` | extlib/catch.hpp:2819-2837 | every printed list parses to its meaning, in which a prefix `exclude:` excludes a pattern, and the bare word `exclude:` the tag behind it |
| `TestSpecRoundTrip.ParseEscaped` | extlib/catch.hpp:9420-9463 | a name written with any escaping that covers its commas, brackets and backslashes parses to one name pattern with that name, excluded behind `~` |
| `TestSpecRoundTrip.ParseListed` | extlib/catch.hpp:9431-9435 | names written without quotes and joined by commas parse to one filter for each name, in order |
| `TestSpecRoundTrip.ParseNameAndTag` | extlib/catch.hpp:9436-9442 | a name and a tag in brackets behind it parse to one filter of both |
| `TestSpecRoundTrip.ParseUnclosed` | extlib/catch.hpp:9409-9413 | a quote or bracket that is not closed adds nothing |
| `TestSpecRoundTrip.ParseOpenEscape` | extlib/catch.hpp:9409-9413 | a name that ends in an escape adds nothing |
| `TestSpecs.WithoutOneMore` | extlib/catch.hpp:2821-2824 | deleting backslashes one by one at shifted places is deleting exactly the recorded positions at once |
| `TestSpecs.StepOk` | extlib/catch.hpp:9420-9463 | on any input, every position that a token is cut at stays inside the argument |
| `TestSpecParsers.TestSpecParser.VisitChar` | extlib/catch.hpp:9420-9452 | the object changes its fields as the machine does, for every mode and character |
| `TestSpecParsers.TestSpecParser.AddPattern` | extlib/catch.hpp:2819-2837 | the token without its escapes and its prefix becomes a pattern, excluded if so, and the parser is outside again |
| `TestSpecParsers.TestSpecParser.TokenWithoutEscapes` | extlib/catch.hpp:2820-2822 | the loop of substring deletions removes exactly the recorded escapes |
| `TestSpecParsers.TestSpecParser.Parse` | extlib/catch.hpp:9403-9414 | the whole loop over the characters, with its jumps ahead |
| `TestSpecParsers.ParseTestSpec` | extlib/catch.hpp:9472-9474 | the object gives the specification that the other results are about |
| `Configs.LastWriteWins` | extlib/easylogging++.cc:262-268 | after any settings every level and type has the value of the last setting of that level or of the global one |
| `Configs.SetDecides` | extlib/easylogging++.cc:466-476 | one setting changes exactly the levels it decides, although the global one is broadcast twice |
| `Configs.ReplayFirst` | extlib/easylogging++.cc:466-500 | the list never has two entries for a level and type, and the level that a type was first set at stays first |
| `Configs.CopyFaithful` | extlib/easylogging++.cc:229-237 | replaying a list into any target copies every entry if and only if no later global entry of the type has another value |
| `Configs.GlobalFirstCopied` | extlib/easylogging++.cc:229-237 | in particular if every type starts with its global entry |
| `Configs.FirstLevelNotCopied` | extlib/easylogging++.cc:229-237 | a list that was set up with an ordinary level first is not copied if that level and the global one were last set differently |
| `Configs.DisabledIsNotCopied` | extlib/easylogging++.cc:229-237 | an example: a level that is disabled is enabled in the copy |
| `TypedConfigs.BuildCorrect` | extlib/easylogging++.h:2056-2077 | a map that leaves out what equals the global value and falls back to it answers every entry if and only if the first entry has the global value |
| `TypedConfigs.BuildAnswersLevel` | extlib/easylogging++.h:2056-2077 | one level is answered wrongly if and only if it has the first value and the global value is another and comes later |
| `TypedConfigs.MapAnswersEntries` | extlib/easylogging++.cc:1593-1631 | the same for the map built from a list of configurations |
| `TypedConfigs.MapAnswersEntry` | extlib/easylogging++.cc:1593-1631 | the same for one entry of a configuration list |
| `TypedConfigs.AnswersLastSetting` | extlib/easylogging++.h:2024-2037 | if a type was first set at the global level, the map answers for every level the last setting that decided it |
| `TypedConfigs.FirstLevelIsForgotten` | extlib/easylogging++.h:2057-2062 | otherwise the level that was set first always gets the global value |
| `TypedConfigs.DisabledButEnabled` | extlib/easylogging++.h:2057-2062 | an example: a level is set to disabled last, and is answered to be enabled |
| `LogConfigurations.Configurations.Set` | extlib/easylogging++.cc:262-268 | the list of objects changes as the list of entries does |
| `LogConfigurations.Configurations.UnsafeSetGlobally` | extlib/easylogging++.cc:490-500 | the loop over the levels sets every single level once |
| `LogConfigurations.Configurations.SetFromBase` | extlib/easylogging++.cc:229-237 | every entry of the base is set in turn, and the base is left as it is |
| `LogConfigurations.TypedConfigurations.Build` | extlib/easylogging++.cc:1593-1631 | the four maps are those built from the list |
| `LogConfigurations.TypedConfigurations.AnswersAreLast` | extlib/easylogging++.cc:1549-1591 | for types first set globally, each of the four questions answers the last setting that decided it: whether its text is a word for true, or the number whose numeral it is |
| `ConfigValues.NumberIsRead` | extlib/easylogging++.cc:1646-1659 | a text is read as n if and only if it is the decimal numeral of n, with any zeros in front and any blanks around it, or n is 0 and the text is no numeral |
| `ConfigValues.TrueIsRead` | extlib/easylogging++.cc:1595-1598 | a text is true if and only if it is one of `TRUE`, `true` and `1` with any blanks around it |
| `HitCounters.AnswerIsDue` | extlib/easylogging++.cc:1764-1773 | whatever calls from other places come in between, the k-th call of a place is answered by k alone |
| `HitCounters.EveryNthIsLogged` | extlib/easylogging++.h:2130-2135 | of K calls for every n-th message exactly K / n are logged, although the counter is reset at 100000 |
| `HitCounters.EveryNExactly` | extlib/easylogging++.h:2130-2135 | in every history of calls the k-th call of a place is answered by whether n divides k, if and only if n is at most 100000 |
| `HitCounters.SomeAnswerIsWrong` | extlib/easylogging++.h:2130-2135 | for larger n, the history of calls in which an answer is wrong |
| `HitCounters.ValidatedMod` | extlib/easylogging++.h:2130-2135 | the reset keeps the remainder of the count |
| `HitCounters.DueCount` | extlib/easylogging++.cc:1764-1805 | how many of k calls are logged, for every n-th, after n and n times |
| `HitCounterRegistry.RegisteredHitCounters.ValidateEveryN` | extlib/easylogging++.cc:1764-1773 | the counter that is found or registered decides the answer from the history of all calls, whatever they asked; if they asked the same, the answer is as due |
| `HitCounterRegistry.RegisteredHitCounters.ValidateAfterN` | extlib/easylogging++.cc:1777-1790 | the counter decides from the history of all calls; if they asked the same, the message is logged from the call after the n-th on |
| `HitCounterRegistry.RegisteredHitCounters.ValidateNTimes` | extlib/easylogging++.cc:1794-1805 | the counter decides from the history of all calls; if they asked the same, the message is logged for the first n calls |
| `HitCounterRegistry.RegisteredHitCounters.Get` | extlib/easylogging++.h:1575-1582 | a counter of the place is found if and only if there is one |
| `WildCards.WildCardMatch` | extlib/easylogging++.cc:782-804 | the loop with its two recursions ends, and says whether the string can be cut into one piece for every character of the pattern |
| `WildCards.MatchesConcat` | extlib/easylogging++.cc:782-804 | a pattern in two parts matches exactly the strings in two parts that match them |
| `WildCards.MatchesPrefix` | extlib/easylogging++.cc:782-804 | a text and a star match exactly the strings that begin with the text |
| `WildCards.MatchesPlain` | extlib/easylogging++.cc:782-804 | without wildcards a pattern matches itself only |
| `DelimitedLists.SplitDelim` | extlib/ezOptionParser.hpp:142-154 | the two iterators cut the string as specified |
| `DelimitedLists.SplitUndoesJoin` | extlib/ezOptionParser.hpp:142-154 | splitting gives back joined pieces if and only if none holds the delimiter and the last is not empty |
| `DelimitedLists.JoinUndoesSplit` | extlib/ezOptionParser.hpp:142-154 | joining gives back the string that was split, up to one delimiter at its end |
| `CommandLines.CommandLineToArgv` | extlib/ezOptionParser.hpp:310-389 | the buffer and the array of pointers, allocated from the length alone, are never overrun, and hold exactly the arguments of the command line |
| `CommandLines.FeedQuoted` | extlib/ezOptionParser.hpp:337-357 | text in quotes is added to an argument as it is, and starts one even if empty |
| `WrittenArguments.WrittenIsRead` | extlib/ezOptionParser.hpp:310-389 | arguments written in pieces, as they are or in either kind of quotes, with any blanks between and behind them, are read as the texts of their pieces |
| `WrittenArguments.UnclosedIsRead` | extlib/ezOptionParser.hpp:337-357 | a quote that is not closed takes the rest of the line to the argument, or to a new one behind blanks |
| `OptionParsers.OptionParser.Parse` | extlib/ezOptionParser.hpp:2007-2085 | every argument goes where its role says, on top of what was parsed before; only if the last flag lacks its argument are unknown arguments not recorded |
| `OptionParsers.OptionParser.ScanOptions` | extlib/ezOptionParser.hpp:2043-2061 | the first pass finds the flags and the arguments they take, and the last of them |
| `OptionParsers.OptionParser.ScanUnknown` | extlib/ezOptionParser.hpp:2063-2078 | the second pass stays aligned with the first: it records exactly the arguments no flag has taken |
| `OptionParsers.OptionParser.Add` | extlib/ezOptionParser.hpp:1446-1471 | a new group, whose flags stand for it from now on |
| `OptionParsers.OptionParser.Export` | extlib/ezOptionParser.hpp:1536-1621 | the text is the first arguments, the groups in sorted order, and the last arguments |
| `OptionRoles.ListedOnce` | extlib/ezOptionParser.hpp:2007-2085 | the roles partition the arguments: each position is listed under its role once, in order |
| `OptionRoles.LastArgs` | extlib/ezOptionParser.hpp:2080-2084 | what is behind the last flag or its argument are exactly the last arguments |
| `OptionExports.ArgumentsOfExport` | extlib/ezOptionParser.hpp:1536-1621 | the exported text cuts into the first arguments, a flag and an argument for every list, and the last arguments |
| `OptionExports.ArgumentsOfFullExport` | extlib/ezOptionParser.hpp:1568-1586 | an export of all options stands for the same arguments, with the defaults of the options that are not set |
| `OptionExports.FeedList` | extlib/ezOptionParser.hpp:1592-1604 | quotes around single pieces of a list vanish |
| `OptionRoundTrips.ExportRoundTrip` | extlib/ezOptionParser.hpp:1536-1621 | cutting and parsing an export with the same options gives every list of every group, the last arguments, and the first ones but for the program name, if and only if no group is set without arguments and a group is set or there is nothing to confuse |
| `OptionRoundTrips.SetFlagIsLost` | extlib/ezOptionParser.hpp:1570-1586 | an example: a set option that takes no arguments is not exported |
| `OptionRoundTrips.LastArgumentMoves` | extlib/ezOptionParser.hpp:1610-1621 | an example: a last argument is read back as a first one |
| `OptionRoundTrips.LoneLost` | extlib/ezOptionParser.hpp:1570-1586 | a group that is set without arguments is never restored: it is lost, gets its default as an argument, or leaves the default among the other arguments |
| `OptionLoneFlags.WordLeft` | extlib/ezOptionParser.hpp:2043-2084 | a word behind a flag that does not take it is unknown, or in front of the last arguments |
| `OptionImportTrips.ImportRoundTrip` | extlib/ezOptionParser.hpp:1641-1751 | importing an exported file, with its lines, indentation and comments handled, restores the same under the same condition, if no string has a line end, and the comment character comes only in strings that are printed in quotes |
| `OptionImports.ImportIsText` | extlib/ezOptionParser.hpp:1731-1742 | importing text without comments, in which no quotes go over a line end, gives the arguments of the text |
| `OptionImports.CommentRemoved` | extlib/ezOptionParser.hpp:1700-1729 | behind text without quotes a comment is removed to the end of the line, whatever it is |
| `OptionImports.CommentLine` | extlib/ezOptionParser.hpp:1673-1681 | a line that starts with the comment character, behind any indentation, adds nothing |
| `OptionImports.ImportKept` | extlib/ezOptionParser.hpp:1656-1742 | a file whose lines are kept as they are gives the arguments of its text |
| `QuotedComments.QuotedIsKept` | extlib/ezOptionParser.hpp:1694-1729 | a line with a string in quotes of either kind is kept whatever the string holds, be it the comment character |
| `QuotedComments.LineIsCut` | extlib/ezOptionParser.hpp:1694-1729 | in a line with quotes of one kind, the first comment character is looked for where the cutting into arguments has no quotes open |
| `QuotedComments.CommentBehindQuotes` | extlib/ezOptionParser.hpp:1710-1722 | a comment behind a string in quotes is cut, and only it, if and only if it is not the case that double quotes hold the comment character and the comment holds a single quote |
| `QuotedComments.ApostropheCuts` | extlib/ezOptionParser.hpp:1710-1722 | an example: a quoted value is cut because of an apostrophe in the comment behind it |
| `SafeLines.SafeIsKept` | extlib/ezOptionParser.hpp:1694-1729 | a line of words and of strings in double quotes is kept if the comment character comes only in the strings |
| `OptionImports.StripLine` | extlib/ezOptionParser.hpp:1667-1729 | searching the sorted positions of quotes says whether a comment character is inside quotes, and the line is cut as specified |
| `OptionImports.MakeCommand` | extlib/ezOptionParser.hpp:1656-1738 | the command line is made of the lines that are left |
| `OptionParsers.OptionParser.Import` | extlib/ezOptionParser.hpp:1641-1751 | the arguments of the file are parsed on top of what was parsed before |
| `OptionRoundTrips.PairRoles` | extlib/ezOptionParser.hpp:2043-2061 | the argument of a flag is taken as such even if it looks like a flag |
| `OptionRoundTrips.ListsOfJoins` | extlib/ezOptionParser.hpp:2052-2058 | splitting the exported arguments gives back the lists |
| `RunTotals.RunTests` | extlib/catch.hpp:8144-8169 | the counts of a run add up to the number of tests, the exit code is the number of failed assertions but 255 at most, and zero if and only if no test failed, and the context's own totals differ by the unexpected passes |
| `RunTotals.SumCounts` | extlib/catch.hpp:9784-9793 | each test is counted under its verdict, there are at least as many failed assertions as failed tests, and none of one exactly if none of the other |
| `RunTotals.SumAssertions` | extlib/catch.hpp:9784-9793 | the assertions of a run are those of its tests: failures are expected where a test may fail, missing assertions and unexpected passes are failures |
| `RunTotals.RunContext.RunTest` | extlib/catch.hpp:7703-7741 | what a test returns and what it leaves in the context, also if it should have failed and passed |
| `RunTotals.DeltaIsRight` | extlib/catch.hpp:7724-7729 | counting by differences and adjusting afterwards agrees with the verdict told from the events |
| `RunTotals.ContextMisses` | extlib/catch.hpp:7724-7730 | the context's totals count a failed test but no failed assertion exactly if a test has passed unexpectedly and no assertion of any test counts as failed |
| `RunTotals.UnexpectedPassIsMissed` | extlib/catch.hpp:7724-7730 | an example: a run of one test that should have failed and passed |
| `TotalsBars.PrintTotalsDivider` | extlib/catch.hpp:11090-11111 | the bar is 79 columns long, has a part for exactly the counts that are not zero, and none is more than 3 off its share of 80 |
| `TotalsBars.Balance` | extlib/catch.hpp:11095-11098 | the two loops end with the right length and empty no part |
| `TotalsBars.QuotientSum` | extlib/catch.hpp:10507-10510 | rounding the three ratios down loses less than three columns |
| `TextColumns.Wrap` | extlib/catch.hpp:4438-4508 | every column whose loop ends is cut into lines that follow each other but for one line end or some blanks; each is the rest of its line of the text, or is filled up to the last place where the text may be broken, or has no such place and is filled up to a hyphen; all of the text is shown unless it is dropped |
| `TextColumns.SegmentIsGood` | extlib/catch.hpp:4438-4464 | the same for each single line, with the characters next to which a text may be broken |
| `TextColumns.NothingLost` | extlib/catch.hpp:4438-4508 | the lines show every character that is not blank, once and in order |
| `TextColumns.EndsExactly` | extlib/catch.hpp:4493-4508 | the loop over the lines ends if and only if there is room for a hyphen, or nothing behind the first line needs one |
| `TextColumns.SecondWordNeverEnds` | extlib/catch.hpp:4493-4508 | an example in a column of width one |
| `TextColumns.DroppedExactly` | extlib/catch.hpp:4475-4482 | the cursor starts at its end exactly if the text starts with a line end, or has no first character to break off where there is room for one only |
| `TextColumns.WideColumns` | extlib/catch.hpp:4475-4482 | a column with room for two characters ends, and drops exactly the texts that start with a line end |
| `TextColumns.TextIsDropped` | extlib/catch.hpp:4475-4482 | an example of such a text |
| `TextColumns.Iterator.CalcLength` | extlib/catch.hpp:4438-4464 | the loops find the end of the line and the length of the segment |
| `TextColumns.Iterator.Advance` | extlib/catch.hpp:4493-4508 | behind a segment one line end is skipped, or all blanks |
| `TextColumns.PrintsSegment` | extlib/catch.hpp:4484-4491 | a line prints its segment and at most blanks, unless the rest of the line of the text is wider than the indented line even without its last blanks, but fits the column without the indent |
| `XmlReporters.ReportAll` | extlib/catch.hpp:11509-11674 | for every well nested stream of events the output reads as well formed XML so far, indented by depth, with Catch, Group, TestCase and a Section for each nested section open; it says exactly what is told of the events, and a whole run leaves nothing open |
| `XmlReports.ReportTold` | extlib/catch.hpp:11509-11674 | of what is told of the events: every group, test case and nested section starts and ends once, with its name; assertions have their expression, its outcome and the element of their result; each end has its totals; all in order, and nothing else of these kinds |
| `XmlReports.OneExpressionEach` | extlib/catch.hpp:11572-11588 | there is one Expression element for every assertion with an expression that failed or warns, or for all if successful ones are included, and as many of them are false as did not succeed |
| `XmlReports.ResultsTold` | extlib/catch.hpp:11556-11616 | the same for each event: what is written of an assertion has its expression and its result exactly if it is to be reported |
| `XmlDetails.AllDetailsTold` | extlib/catch.hpp:11509-11674 | the texts, places, descriptions, tags, types and durations in the report are those of the events, each in its element |
| `XmlDetails.WarningIsLost` | extlib/catch.hpp:11556-11608 | the text of a warning is written if and only if the messages of its assertion are |
| `XmlReporters.XmlReporter.Report` | extlib/catch.hpp:11509-11674 | after each event the open elements are those of the new phase, and exactly what is told of the event was added |
| `XmlReporters.ReportAndFinish` | extlib/catch.hpp:10059-10062 | if a run breaks off, the writer ends what is open, the innermost first, and adds nothing else |
| `XmlWriters.XmlWriter.StartElement` | extlib/catch.hpp:10064-10072 | a reader of the output sees one more element open, whose start tag takes attributes |
| `XmlWriters.XmlWriter.EndElement` | extlib/catch.hpp:10080-10093 | a reader of the output sees the innermost element end under its name |
| `XmlWriters.XmlWriter.WriteAttribute` | extlib/catch.hpp:10095-10099 | an attribute lands in the start tag that is still open |
| `TokenStreams.ReadAll` | extlib/catch.hpp:4815-4834 | reading token by token gives exactly the expansions of the arguments that are not empty |
| `TokenStreams.TokenStream.Advance` | extlib/catch.hpp:4825-4834 | moving on takes exactly one token off the stream |
| `TokenStreams.TokenStream.LoadBuffer` | extlib/catch.hpp:4771-4800 | the buffer is loaded from the next argument that is not empty |
| `TokenStreams.OptionWithValue` | extlib/catch.hpp:4781-4784 | an option and its value may be one argument, whatever the value is |
| `TokenStreams.LettersTogether` | extlib/catch.hpp:4786-4791 | options of one letter may be put together |
| `TokenStreams.GivenIsRead` | extlib/catch.hpp:4771-4800 | command lines are read as what they are written for: words, options alone, options with a value, and letters together |
| `TokenStreams.EveryArgument` | extlib/catch.hpp:4771-4800 | and every argument is written in exactly one of these ways |
| `CommandLineParsers.Parse` | extlib/catch.hpp:5490-5534 | the loop takes at least one token a round and comes to the specified result |
| `CommandLineParsers.TryOn` | extlib/catch.hpp:5323-5355 | one parser takes the tokens that are its own, moves the stream on by them, or says what is wrong |
| `CommandLineParsers.ParsedUses` | extlib/catch.hpp:5490-5534 | if parsing completes, every token was taken in order by one parser that it fits, and a parser that is not for a container was used once at most |
| `CommandLineOutcomes.ParsedExactly` | extlib/catch.hpp:5490-5534 | if tokens can be explained by uses, each of the first parser that acts on its tokens and is not used up, and by how it ends, then so they are parsed: to completion, to a stop, or to the failure with its message |
| `CommandLineOutcomes.AlwaysExplained` | extlib/catch.hpp:5490-5534 | and every command line can be explained so |
| `CommandLineOutcomes.CompletesExactly` | extlib/catch.hpp:5507-5532 | parsing completes if and only if all tokens can be taken by parsers that accept them |
| `CommandLineParsers.Validate` | extlib/catch.hpp:5357-5371 | the first fault in the names of an option |

## Left out

- Generators and `IndexTracker`, section filters, `aborting()` and `abortAfter`, fatal signals, benchmarks, timing.
- TestRunner.RunContext.RunTest: sections of one body have distinct names and locations; with two alike, both would
  share a tracker.
- A test body is a fixed tree: which sections it reaches does not depend on state that it changes. An exception is
  thrown at the end of a section body, since sections behind an unconditional throw cannot be reached.
- Expansion of tag aliases, the matching of patterns against test cases, and lower-casing.
- `ToFile`, `Filename`, `Format`, `SubsecondPrecision` and `PerformanceTracking`, which follow other rules; the
  remaining defaults; overflow in reading numbers.
- Locks and threads, ownership of memory, files and streams, clocks, colours other than their names.
- Counters that wrap around after 2^64 calls, and totals near that size.
- OptionRoundTrips.ExportRoundTrip: what is exported can be printed, so it has no quotes of its own; a default that is
  exported behind a flag that does not take it is not a flag. Of an export of all options only the arguments it stands
  for are stated.
- Sorting the groups for an export is a parameter, and only its result matters. Validators, numbers and usage texts.
- XmlReporters.ReportAll: `XmlEncode` is left out, and names and texts come trimmed as they are to be written.
- CommandLineParsers.Parse: what setting a variable does is a function of the text that says whether it is accepted.
- TextColumns.Wrap: side by side columns and the text printed for each line are not modelled beyond
  `TextColumns.PrintedEnd`.
