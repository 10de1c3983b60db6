# Verified models of the TSpider client programs

This project models the hard parts of the client programs of TSpider (a MariaDB fork) in Dafny and proves what they
promise: the interactive client `mysql`, its line reader and its completion table, the importer `mysqlimport`, the log
reader `mysqlbinlog` and the dumper `mysqldump`.

Code that changes things in place is modelled in place: classes for objects, arrays for buffers, loops for loops. Each
such method is proved equal to a function on values the theorems are about, or, where it prints a script, against what
running the script means. `dafny verify dfyconfig.toml` checks everything.

| files | what they model |
|---|---|
| `Text`, `Wrappers` | character classes, C strings, missing values |
| `SqlLexer`, `SqlLexerProofs`, `LexerContents`, `LexerBranches`, `LineLexer` | `add_line`: the automaton that cuts input lines into statements, what it keeps over whole sessions, what it does to text, and its in-place form |
| `LineReader` | `LINE_BUFFER`: reading lines through a growing buffer under short reads |
| `CompletionHash`, `CompletionGenerator` | the prefix table behind completion, and the generator that walks it |
| `WorkerPool`, `WorkerPoolTheorems`, `WorkerPoolRuns` | the import worker pool, as a state machine over every interleaving, and runs it has |
| `Flashback`, `LoadLog` | reversing row events, and assembling the files of LOAD DATA from a log |
| `Quoting`, `GetArg` | quoted names, option strings and command arguments |
| `InsertBatch` | packing rows into extended INSERT statements |
| `Definer`, `DumpCuts` | hiding DEFINER clauses, choosing delimiters, where the one chosen for an event cuts it, and which servers run what of a hidden clause |
| `DumpScript`, `DumpSession`, `DumpCreates`, `DumpSettings`, `DumpPieces`, `DumpVerdict`, `DumpWriter` | the dump script: what it does to the settings of the session it runs in, which settings each of its statements runs under, which delimiter is in force, and the routines that print it |
| `ScriptReader`, `ScriptCuts`, `DumpSpelling`, `SpellingReader`, `ScriptHeld` | a dump script fed to the client's lexer: when it is sent statement by statement, where a text is cut first, how statements that set variables are spelled and read back, and what is held back where a script does not keep to its delimiters |
| `Xml` | CDATA sections and comments of the XML dump |

Six properties turned out false of the code as it stands; each has an input at which it fails and its exact condition:

* `create_delimiter` counts up its bound instead of the length on trial (client/mysqldump.c:2266-2267), so it only ever
  tries two semicolons; its comment promises a string that is not in the query. `Definer.DelimiterFoundIff` says
  when it keeps the promise, `Definer.LongerDelimiterIsMissed` gives a text where it does not.
* A dump whose events fail goes on as if nothing had happened: the results of `dump_events_for_db` and
  `dump_routines_for_db` are dropped (client/mysqldump.c:4780, 4785, 5162, 5168). If the events fail behind a change of
  the delimiter, all that follows, the footer included, ends with a delimiter that is not in force. The client holds
  it back and sends it at the end of the script, which still restores the settings the header changed, unless a
  DELIMITER line comes in between: then that line is part of what is sent, the server refuses it, the client stops, and
  the settings are never restored. `DumpWriter.Dump.DumpAll` has the exact condition for keeping to the delimiters and
  the one for restoring sessions; `DumpWriter.UnknownCollation` and `DumpWriter.MissingDelimiter` have scripts on each
  side. Failed routines and triggers do no such harm.
* Triggers and routines are printed under two semicolons without a search for them, and are sent whole exactly if none
  stand in their text outside strings (`ScriptCuts.TriggerSentIff`, `RoutineSentIff`; `CutRoutine` and `UncutRoutine`
  have a text on each side).
* The first closing mark does not close a client comment if a slash stands before it, which the client takes for another
  opening mark together with the mark's star, or if "/*!" stands in the comment. In every other case it does
  (`LexerContents.ClosedIff`, `MarkPassed`, `CommentLine`; `StaysOpenExamples` has a line for each).
* A name written with ANSI quotes comes back from `get_arg` exactly if it holds no backslash
  (`GetArg.AnsiQuotedNameReturns`, `BackslashedNameIsLost`), because double quotes, unlike backticks, let a backslash
  escape.
* `completion_hash_exists` does not say whether a word was added, but whether it is the first added word that has it as
  a prefix; of an added word it is true exactly if no earlier word starts with it (`CompletionHash.FirstIfNoneBefore`,
  `AddedButNotFirst`).

## Model

| member | source | states |
|---|---|---|
| SqlLexer.Step | client/mysql.cc:2299-2532 | every branch of the loop moves the read position forward and stays inside the line, or ends the line |
| LineLexer.Lexer.AddLine | client/mysql.cc:2281-2559 | run in place on one mutable line, `add_line` computes exactly what the automaton computes from the original line: no write reaches a character still to be read, none passes the terminator's slot, with or without preserved comments |
| LineLexer.Lexer.DoStep | client/mysql.cc:2299-2532 | one turn of the in-place loop is one step of the automaton, and the write position stays behind the read position with room for an owed blank |
| LineLexer.Lexer.DoBackslash | client/mysql.cc:2327-2389 | the branch for backslash commands and escaped characters refines its step |
| LineLexer.Lexer.DoDelimiter | client/mysql.cc:2390-2431 | the branch for the delimiter refines its step: the statement collected so far is sent, with a trailing comment when comments are kept |
| LineLexer.Lexer.DoLineComment | client/mysql.cc:2432-2476 | the branch for a comment up to the end of the line refines its step |
| LineLexer.Lexer.DoCommentMark | client/mysql.cc:2477-2512 | opening and closing a comment refine their steps, including the blank owed after a removed comment |
| LineLexer.Lexer.DoOrdinary | client/mysql.cc:2513-2532 | the branch for ordinary characters refines its step: quotes open and close, an owed blank is written first |
| LineLexer.Lexer.FinishLine | client/mysql.cc:2534-2557 | the end of the line refines the automaton's: the newline lands no further than the terminator's slot |
| SqlLexerProofs.StepConsistent | client/mysql.cc:2299-2532 | one step keeps the relation between the text kept and the open quote |
| SqlLexerProofs.TurnConsistent | client/mysql.cc:2114-2129 | one turn of the read loop, with client commands that send or clear, keeps it too |
| SqlLexerProofs.SessionConsistent | client/mysql.cc:1975-2130 | over any sequence of lines, relexing the accumulated text from a clean state gives exactly the open quote; a comment and a string are never open together; every statement sent is quote-balanced |
| SqlLexerProofs.EndConsistent | client/mysql.cc:2131-2143 | at the end of a batch file what is still in the buffer is sent, trimmed; it has open exactly the quote the lexer carries, so it is balanced exactly if none is open, unless a backslash ends it; all statements before it are balanced |
| SqlLexerProofs.NothingPendingInComment | client/mysql.cc:2477-2512 | at every point inside every line, no statement text is pending while a comment is open |
| LexerContents.QuietLine | client/mysql.cc:2513-2557 | a line in which no comment and no delimiter starts outside strings, escapes included, is appended to the statement unchanged, with the newline the end rules ask for |
| LexerContents.DelimiterCuts | client/mysql.cc:2390-2431 | a delimiter outside strings sends exactly the text before it, with a kept comment behind it, and reading goes on, afresh, behind that |
| LexerContents.CommentInLine | client/mysql.cc:2477-2512 | whatever follows a comment in its line, other comments and delimiters included, is read with one blank owed and the text before the comment in the buffer |
| LexerContents.CommentLeavesBlank | client/mysql.cc:2477-2532 | if the rest of the line is quiet, that is one blank before the first character behind it that is neither a blank nor escaped |
| LexerContents.KeptAfterBlank | client/mysql.cc:2524-2530 | where no escaped character follows, that is one blank in front of the text, or none where a blank follows |
| LexerContents.ClosedIff | client/mysql.cc:2477-2522 | the first closing mark closes a comment exactly if no slash stands before it and no "/*!" stands in it, or before it still open |
| LexerContents.MarkPassed | client/mysql.cc:2477-2522 | a first closing mark that does not close the comment is passed, and the comment stays open behind it |
| LexerContents.CommentLine | client/mysql.cc:2477-2559 | a line that is a comment up to its first closing mark leaves the comment open exactly if a slash stands before the mark or "/*!" stands in it |
| LexerContents.StaysOpenExamples | client/mysql.cc:2477-2522 | a line of each kind that leaves a comment open |
| LexerBranches.LineCommentEnds | client/mysql.cc:2432-2476 | of a line with a comment up to its end, after `#` or `--`, the statement keeps exactly what comes before the comment, with a newline if there is any text and the line was not cut; nothing is sent |
| LexerBranches.LineCommentKept | client/mysql.cc:2448-2475 | where comments are kept, its text joins a statement that was begun, and is sent alone otherwise |
| LexerBranches.CommentStaysOpen | client/mysql.cc:2477-2493 | of a line with a comment that is not closed the statement keeps exactly what comes before it, without a newline |
| LexerBranches.CommentGoesOn | client/mysql.cc:2513-2557 | a further line of the comment changes nothing |
| LexerBranches.CommentCloses | client/mysql.cc:2494-2512 | the line that closes it is read from behind the mark, with one blank owed |
| LexerBranches.CommentPreserved | client/mysql.cc:2477-2512 | where comments are kept, one inside a line joins the statement as it is |
| LexerBranches.TrailerKept | client/mysql.cc:2395-2415 | behind a delimiter, where comments are kept, blanks and a comment up to the end of the line go with the statement, and nothing else |
| LexerBranches.CommandRuns | client/mysql.cc:2343-2379 | a backslash command outside strings sends what was collected, clears it or keeps it, and reading goes on behind it |
| LexerBranches.SendAndClear | client/mysql.cc:2343-2353 | but for binary mode, `\g` and `\G` send exactly what was collected, `\c` clears it |
| LexerBranches.ParamsEnd | client/mysql.cc:2354-2378 | parameters of a command end behind the first delimiter, or before the mark that closes a comment for the server, or with the line |
| LexerBranches.UnknownCommand | client/mysql.cc:2380-2388 | an unknown command that is not let pass ends the session, and the text of its line is lost |
| LexerBranches.TrailingBackslash | client/mysql.cc:2335-2336 | a backslash at the end of a line is dropped, in a string or not |
| LexerBranches.LineCommandRuns | client/mysql.cc:2114-2123 | a line that is a command sends, clears or keeps the statement collected so far, and does not join it |
| LineReader.LineBuffer.MakeRoom | client/readline.cc:157-206 | room is made growing at most once and never past the limit, keeping the unfinished line; it fails only at the limit and then changes nothing |
| LineReader.LineBuffer.FillBuffer | client/readline.cc:157-224 | new bytes follow the unfinished line; nothing unread is lost; at the end of the file a missing newline is added; line start, line end and data end stay ordered and the sentinel in bounds |
| LineReader.LineBuffer.InternReadLine | client/readline.cc:227-265 | a line is found as long as any text is unread: up to its newline, or cut, nonempty, at the size limit |
| LineReader.LineBuffer.BatchReadline | client/readline.cc:57-79 | the line handed out is the next of the unread text, less newline and, in text mode, carriage return, and terminated without touching unread bytes |
| LineReader.LineBuffer.constructor | client/readline.cc:85-123 | a new reader holds nothing and has the whole file unread |
| LineReader.LineBuffer.FromString | client/readline.cc:130-148 | a reader on a string has the string and a newline unread |
| LineReader.LineBuffer.AddString | client/readline.cc:130-148 | a string added to such a reader follows all its text, read or not, after a blank |
| LineReader.LineBuffer.ReadAll | client/readline.cc:57-265 | reading line by line terminates, for every file and every schedule of short reads, and hands out the file piece by piece |
| LineReader.ReadsBack | client/readline.cc:57-265 | the lines joined with a newline after each uncut one are the file, with one newline more exactly when its last line lacks one and was not cut |
| LineReader.LinesAreSplit | client/readline.cc:72-77 | if no line is long enough to hit the limit, the lines are exactly the split on newline |
| LineReader.CarriageReturn | client/readline.cc:70-74 | one carriage return before the newline goes, and nothing else |
| CompletionHash.Hash | client/completion_hash.cc:28-40 | the hash of every string stays below 2^28 |
| CompletionHash.HashPjw | client/completion_hash.cc:28-40 | the bit loop computes that hash |
| CompletionHash.MatchingIsWithPrefix | client/completion_hash.cc:219-225 | entering every prefix of every word gives each key exactly the added words with that prefix, newest first, with duplicates |
| CompletionHash.HashTable.Locate | client/completion_hash.cc:113-133 | whatever collisions occur, the chain search finds the bucket of a key exactly if something was entered under it |
| CompletionHash.HashTable.Update | client/completion_hash.cc:60-111 | one more entry leaves the table agreeing with the longer list of entries |
| CompletionHash.HashTable.Find | client/completion_hash.cc:113-133 | lookup agrees with the list of entries |
| CompletionHash.HashTable.AddWord | client/completion_hash.cc:219-225 | the table agrees with the list of added words and one more |
| CompletionHash.HashTable.FindAllMatches | client/completion_hash.cc:158-171 | holds exactly the added words with that nonempty prefix, newest first with duplicates, and their number |
| CompletionHash.HashTable.Exists | client/completion_hash.cc:136-156 | true exactly if the first added word with prefix `w` is `w` itself; of an added nonempty word, exactly if no word added before it starts with it |
| CompletionHash.FirstIfNoneBefore | client/completion_hash.cc:136-156 | an added word is the first with its prefix exactly if no word before its first occurrence starts with it |
| CompletionHash.AddedButNotFirst | client/completion_hash.cc:136-156 | two words of which the second was added and is not found |
| CompletionHash.HashTable.FindLongestMatch | client/completion_hash.cc:173-202 | from bucket counts alone: length and bucket of the longest common prefix of all added words that start with the text |
| CompletionGenerator.Generator.Next | client/mysql.cc:2716-2792 | each call yields the next of the completions, across bucket chains and calls |
| CompletionGenerator.Generator.Walk | client/mysql.cc:2746-2791 | walking on stops at the next entry of its key's length, or at the end of the table |
| CompletionGenerator.Generator.CompleteAll | client/mysql.cc:2716-2792 | calling until nothing is returned terminates and yields exactly the completions |
| CompletionGenerator.WalkYieldsWords | client/mysql.cc:2746-2791 | completing the empty text yields every added nonempty word exactly as often as it was added |
| WorkerPool.RunKeeps | client/mysqlimport.c:599-724 | the invariant of counter, mutexes, files and teardown holds in every state of every interleaving |
| WorkerPool.MainKeeps | client/mysqlimport.c:683-724 | every step of the main thread keeps it |
| WorkerPool.WorkerKeeps | client/mysqlimport.c:599-637 | every step of a worker keeps it |
| WorkerPoolTheorems.CounterExact | client/mysqlimport.c:683-709 | the counter is the number of workers not past their decrement, plus one between main's increment and the outcome of thread creation, and never exceeds the limit |
| WorkerPoolTheorems.MutualExclusion | client/mysqlimport.c:628-634 | no two threads are ever in sections guarded by the same mutex |
| WorkerPoolTheorems.OneWorkerPerFile | client/mysqlimport.c:683-709 | no file goes to two workers, and each file dealt with has one unless its thread failed to start |
| WorkerPoolTheorems.DestroyIsSafe | client/mysqlimport.c:711-724 | when the mutexes are destroyed every worker is past its last use of them |
| WorkerPoolTheorems.ExitHoldsMutex | client/mysqlimport.c:505-527 | a fatal exit of a worker happens with the mutex in its hands |
| WorkerPoolTheorems.StepsUseUpWork | client/mysqlimport.c:599-724 | every step but an idle wake-up decreases a bound on the work left |
| WorkerPoolTheorems.NoDeadlock | client/mysqlimport.c:599-724 | until the end some thread can always take a useful step |
| WorkerPoolTheorems.CanFinish | client/mysqlimport.c:711-724 | every run can be continued to its end |
| WorkerPoolRuns.ImportsAllFiles | client/mysqlimport.c:599-724 | from every initial state there is a run to the end in which every file has a worker that imported it and finished, and none failed |
| WorkerPoolRuns.ManyAtATime | client/mysqlimport.c:683-709 | with files enough, some run has as many workers importing at once as the limit allows |
| WorkerPoolRuns.CreationFails | client/mysqlimport.c:697-709 | a thread that cannot be created costs its own file, and leaves nothing counted |
| WorkerPoolRuns.ErrorEnds | client/mysqlimport.c:505-527 | a fatal error during an import can end the process |
| Flashback.Processor.PrintHeld | client/mysqlbinlog.cc:979-998 | rows held back are printed from the last to the first and flushed by the one with the end flag |
| Flashback.Processor.Process | client/mysqlbinlog.cc:905-922 | end flags move from the last row of a statement to its first, in place |
| Flashback.Processor.Run | client/mysqlbinlog.cc:3146-3158 | a whole run prints the held outputs from the last to the first |
| Flashback.PrintsReversal | client/mysqlbinlog.cc:1519-1538 | the printed log is the reversal of the one read, with each statement's end flag on its last row and no other; an unfinished statement is not printed |
| Flashback.RowsAreReversed | client/mysqlbinlog.cc:3146-3158 | the printed rows are the exact reverse of the rows read |
| Flashback.FlashbackIsItsOwnInverse | client/mysqlbinlog.cc:905-922 | flashing back twice gives the original order and flags |
| LoadLog.AssembledIs | client/mysqlbinlog.cc:533-599 | the file of an id holds the block of its open first event and all blocks appended since, in log order |
| LoadLog.HandedOutOnce | client/mysqlbinlog.cc:359-401 | after a file was handed out there is nothing for its id until another first event |
| LoadLog.LoadLogProcessor.SetSlot | mysys/array.c:196-209 | a slot is set and slots between the old and the new end are empty |
| LoadLog.LoadLogProcessor.ProcessFirst | client/mysqlbinlog.cc:533-599 | a first event opens a file, replacing an open one of that id and no other |
| LoadLog.LoadLogProcessor.ProcessAppend | client/mysqlbinlog.cc:661-699 | an append adds to the live file of its id; without one it changes nothing |
| LoadLog.LoadLogProcessor.ProcessExecute | client/mysqlbinlog.cc:359-401 | the file handed out holds exactly what was assembled and was never handed out before; a record of the other kind stays |
| Quoting.FieldEscapeInto | client/mysqlimport.c:574-595 | the importer's loop writes the escaped string through a moving pointer |
| Quoting.FieldEscapeQuoted | client/mysqldump.c:3614-3642 | the dumper's loop appends the same escaped string between quotes |
| Quoting.EscapedIsOneLiteral | client/mysqlimport.c:574-595 | between quotes it lexes as exactly one complete literal, at most twice as long as the string |
| Quoting.LiteralSays | client/mysqlimport.c:574-595 | read with a doubled quote for one and backslash pairs left alone, the literal says exactly the string, with one more backslash exactly if the string ends in an odd number of them |
| Quoting.NameReadsBack | client/mysqldump.c:1833-1850 | whatever the options, the name returned, followed by anything that cannot be part of it, reads back as the name |
| Quoting.QuoteName | client/mysqldump.c:1833-1850 | the name with its quote characters doubled between quotes, or as it is if nothing forces quoting |
| GetArg.GetArgument | client/mysql.cc:4559-4615 | both modes agree on whether there is an argument; checking changes nothing; getting leaves it unquoted and terminated in the line |
| GetArg.BacktickedNameReturns | client/mysql.cc:4559-4615 | every nonempty name in backticks comes back from a long-form command |
| GetArg.AnsiQuotedNameReturns | client/mysql.cc:4590-4612 | a name in double quotes comes back exactly if it holds no backslash |
| GetArg.BackslashedNameIsLost | client/mysql.cc:4590-4612 | a database name that does not come back |
| GetArg.PlainArgumentReturns | client/mysql.cc:4559-4615 | an argument without quotes, blanks and backslashes comes back, behind any blanks, in both forms of a command |
| GetArg.SlashedArgumentReturns | client/mysql.cc:4590-4612 | every nonempty text comes back if each character has a backslash before it |
| GetArg.SlashedQuotedReturns | client/mysql.cc:4583-4612 | also between quotes, but for backticks behind a command in its long form |
| GetArg.NoArgumentIff | client/mysql.cc:4580-4614 | there is no argument exactly if nothing but blanks stands behind the command, or a quote closed at once or never |
| InsertBatch.DumpRows | client/mysqldump.c:4094-4128 | every row once and in order, one terminator per statement and none for no rows, rows joined as long as the running total stays below the limit |
| InsertBatch.StatementsAreShort | client/mysqldump.c:4099-4115 | every statement of two or more rows is shorter in bytes than the buffer |
| InsertBatch.PackingIsUnique | client/mysqldump.c:4099-4115 | there is only one such packing of the rows |
| Definer.Instr | client/mysqldump.c:1366-1379 | the first match of a token under a collation, or none |
| Definer.Clause | client/mysqldump.c:1591-1604 | the clause starts at the first " DEFINER" and ends at the first keyword from there on; there is none exactly if no keyword follows one |
| Definer.CoverDefiner | client/mysqldump.c:1582-1622 | the covered statement fills a buffer 23 bytes longer than the statement to its last byte; null exactly if there is no clause |
| Definer.UncoveredIsOriginal | client/mysqldump.c:1613-1619 | taking the two marks out gives the statement back |
| Definer.CoveredRuns | client/mysqldump.c:1559-1580 | a server that knows the clause runs the whole statement, one that knows only the statement runs it without the clause, an older one runs nothing |
| Definer.CreateDelimiter | client/mysqldump.c:2258-2279 | two semicolons if they are not in the text, otherwise the bound overflows; null only without room |
| Definer.DelimiterFoundIff | client/mysqldump.c:2242-2256 | a delimiter is found whenever a run of semicolons would do exactly if the text has no two semicolons in a row or has a run as long as the buffer allows |
| Definer.LongerDelimiterIsMissed | client/mysqldump.c:2266-2276 | a text for which three semicolons would do and the search overflows |
| Definer.CoveredIsClear | client/mysqldump.c:1582-1622 | the marks bring no delimiter into a text that holds none |
| DumpCuts.EventTextIsCut | client/mysqldump.c:2412-2421 | the printed CREATE EVENT, covered or not, holds the delimiter found for it nowhere before its end, so a reader that looks for it cuts exactly there |
| DumpCuts.TriggerRuns | client/mysqldump.c:3411-3442 | servers from 5.0.17 on run all of a trigger, those from 5.0.3 on all but its DEFINER clause, older ones nothing |
| DumpCuts.EventRuns | client/mysqldump.c:2397-2421 | servers from 5.1.17 on run all of an event, those from 5.1.6 on all but its DEFINER clause, older ones nothing |
| ScriptCuts.FirstIsSent | client/mysql.cc:2281-2559 | of lines without comments for the client, whatever becomes of them, the first statement sent is exactly the text up to the first delimiter outside strings, and nothing is sent if there is none |
| ScriptCuts.SentWholeIff | client/mysql.cc:2390-2431 | a text printed with a delimiter behind it is the first statement sent exactly if that delimiter does not stand in it before its end outside strings |
| ScriptCuts.TriggerSentIff | client/mysqldump.c:3433-3442 | a trigger, printed under two semicolons without a search for them, is sent whole in exactly that case |
| ScriptCuts.RoutineSentIff | client/mysqldump.c:2649-2653 | so is a routine |
| ScriptCuts.CutRoutine | client/mysqldump.c:2649-2653 | a routine that is cut between its halves |
| ScriptCuts.UncutRoutine | client/mysqldump.c:2649-2653 | one with two semicolons in a string that is sent whole |
| DumpSession.HeldUntilWord | client/mysql.cc:2114-2143 | read under a delimiter they do not end with, statements are held and run one by one in the end, up to the first DELIMITER line among them, where the client stops |
| DumpSession.CleanWithin | client/mysqldump.c:1441-1525 | a switch of settings, anything that leaves settings and saved values alone, and the switch back leave all settings alone, on every server version, and keep to the delimiter |
| DumpSession.SavesAndAssignsSwitch | client/mysqldump.c:1441-1466 | statements that save settings one by one and then set them leave each setting with its new value and its old one saved, and touch nothing else |
| DumpSession.RestoresSwitchBack | client/mysqldump.c:1469-1479 | statements that restore them one by one bring back whatever was saved, and touch nothing else |
| DumpCreates.GoodWithin | client/mysqldump.c:2385-2439 | what runs between a switch of settings and the switch back runs under the settings it makes |
| DumpCreates.PerformsConcat | client/mysqldump.c:2385-2439 | two parts one behind the other do their tasks in order, each under its settings |
| DumpSettings.SavesMore | client/mysqldump.c:728-757 | one more group of settings the header saves leaves the earlier ones saved and the others untouched |
| DumpSettings.GivesMore | client/mysqldump.c:728-757 | one more group of settings the header gives new values leaves the earlier ones their new values |
| DumpSettings.RestoresMore | client/mysqldump.c:772-792 | one more setting the footer restores leaves only the rest to be restored, in any order |
| DumpPieces.FailsHere | client/mysqldump.c:2362-2406 | the first event that fails does so before any delimiter was printed exactly if it gets no delimiter and no event with a body stands before it |
| DumpPieces.EventDone | client/mysqldump.c:2362-2439 | an event's DROP under the old delimiter, its own delimiter and the rest under that make a part that leaves settings alone and its delimiter in force |
| DumpPieces.RoutineSettingsAre | client/mysqldump.c:2606-2647 | triggers and routines run under exactly the character sets and the SQL mode reported for them, and the header's settings for the rest |
| DumpPieces.EventSettingsAre | client/mysqldump.c:2385-2411 | events also under their time zone |
| DumpPieces.HeaderValuesAre | client/mysqldump.c:728-757 | what the header's settings are on a server that knows them all |
| DumpPieces.ScriptPerforms | client/mysqldump.c:693-806 | between header and footer everything runs with the settings of the header, but for its own switches |
| DumpVerdict.SafeScript | client/mysqldump.c:693-806 | header, a clean body and footer keep to the delimiters, and leave the settings of every session on every server as they were |
| DumpVerdict.SilentScript | client/mysqldump.c:2372-2392 | if a body leaves another delimiter in force and prints no DELIMITER line behind that, the script does not keep to its delimiters, and yet leaves the settings of every session on every server as they were |
| DumpVerdict.BrokenScript | client/mysqldump.c:2372-2392 | if it prints one, the footer never runs: on some server some session ends with settings the header made |
| DumpVerdict.Verdict | client/mysqldump.c:6118-6263 | so a script with its footer keeps to its delimiters exactly if its body leaves the usual delimiter in force, and restores all sessions exactly if it does or no DELIMITER line follows |
| DumpWriter.Dump.SwitchCsVariables | client/mysqldump.c:1441-1466 | on every server new enough, running what was appended sets the three variables to their own values, saves the old ones and touches nothing else; on older ones it changes nothing |
| DumpWriter.Dump.RestoreCsVariables | client/mysqldump.c:1469-1479 | on every server new enough, running what was appended brings back the three saved values and touches nothing else |
| DumpWriter.Dump.SwitchSqlMode | client/mysqldump.c:1482-1493 | running what was appended sets the SQL mode, saves the old one and touches nothing else |
| DumpWriter.Dump.RestoreSqlMode | client/mysqldump.c:1496-1502 | running what was appended brings back the saved SQL mode |
| DumpWriter.Dump.SwitchTimeZone | client/mysqldump.c:1505-1516 | running what was appended sets the time zone, saves the old one and touches nothing else |
| DumpWriter.Dump.RestoreTimeZone | client/mysqldump.c:1519-1525 | running what was appended brings back the saved time zone |
| DumpWriter.Dump.SwitchDbCollation | client/mysqldump.c:1382-1414 | alters the collation of the database exactly if it differs; fails, printing nothing, exactly if the client does not know the one required |
| DumpWriter.Dump.RestoreDbCollation | client/mysqldump.c:1417-1438 | alters it back; fails, printing nothing, exactly if the client does not know it |
| DumpWriter.Dump.DumpTrigger | client/mysqldump.c:3399-3457 | from any session with given settings, its statements run in order, each under the settings it should: DROP and CREATE under the trigger's SQL mode and character sets, the altering of the database outside of them; settings and delimiter end as they began, failed or not; on failure the beginning of its statements stays printed |
| DumpWriter.Dump.DumpRoutine | client/mysqldump.c:2579-2671 | so for a routine and the character sets reported for it; one whose text is empty or withheld prints nothing |
| DumpWriter.Dump.DumpEvent | client/mysqldump.c:2362-2439 | so for an event, its time zone included; its DROP ends with the delimiter still in force, and the event leaves its own in force, unless it failed for want of one |
| DumpWriter.Dump.DumpTriggers | client/mysqldump.c:3406-3454 | all triggers in order, up to the first that fails; settings and delimiter end as they began |
| DumpWriter.Dump.DumpRoutines | client/mysqldump.c:2548-2677 | all routines in order, up to the first that fails or, without `--force`, the first whose body the server withholds; reported exactly if it comes to one of the latter; settings and delimiter end as they began |
| DumpWriter.Dump.DumpEventsForDb | client/mysqldump.c:2291-2463 | all events in order, up to the first that fails; settings end as they began, and the usual delimiter is in force again exactly if none fails or the first with a body gets no delimiter |
| DumpWriter.Dump.DumpCreateTable | client/mysqldump.c:2984-2999 | on servers that know the setting a table is created with the client's character set utf8, and settings end as they began |
| DumpWriter.Dump.DumpStandIn | client/mysqldump.c:2916-2966 | so is the stand-in table of a view, on every server |
| DumpWriter.Dump.DumpView | client/mysqldump.c:6009-6023 | a view is created under its own character sets, and settings end as they began |
| DumpWriter.Dump.WriteHeader | client/mysqldump.c:693-760 | from every session on every server new enough for each, running the header saves every setting it may change, and leaves foreign key and unique checks and notes off, the SQL mode, the time zone and the character sets as the options say |
| DumpWriter.Dump.WriteFooter | client/mysqldump.c:763-806 | from any session in which the header's saves hold, running the footer brings all eight settings back |
| DumpWriter.Dump.DumpAll | client/mysqldump.c:6118-6263 | for all options and any blocks of any databases: the dump comes to its end unless, without `--force`, triggers fail or it comes to a routine whose body the server withholds, and these alone are reported; the script it leaves then keeps to its delimiters exactly if no database's events fail behind a change of the delimiter, and restores the settings of every session on every server exactly if no block behind such events prints a DELIMITER line; if nothing fails, from every session on every server that knows all of it the script does exactly what its blocks ask for, in order, each statement under the header's settings and its own |
| DumpWriter.UnknownCollation | client/mysqldump.c:2387-2392 | an event whose database had a collation the client does not know: as the last block it leaves a script that restores sessions, with a routine behind it one that does not, and neither is reported |
| DumpWriter.MissingDelimiter | client/mysqldump.c:2372-2378 | an event without a delimiter does no harm before one that has one; behind it the script no longer keeps to its delimiters, and with more events behind that it does not restore sessions |
| ScriptReader.StatementSent | client/mysql.cc:2281-2559 | a statement of any number of quiet lines that ends with the delimiter in force is sent whole, and nothing is left of it |
| ScriptReader.OtherwiseKept | client/mysql.cc:2281-2559 | one that ends with anything else is not sent and stays in hand |
| ScriptReader.ScriptSent | client/mysql.cc:1975-2165 | a script whose statements all end with the delimiter in force is sent statement by statement, each exactly as written, and the client ends with the delimiter the script leaves |
| DumpSpelling.SettingIsRead | client/mysqldump.c:728-792 | every statement of header, footer and switches that sets variables, spelled as printed but for case and blanks that only align, is read by the client as one statement with exactly that text |
| DumpSpelling.SpelledScriptSent | client/mysqldump.c:693-806 | so a script that keeps to its delimiters, with values that can be printed and other statements that are read as one, is sent statement by statement with nothing left over |
| ScriptHeld.RestHeld | client/mysql.cc:2114-2143 | where a script stops keeping to its delimiters, the statements before are sent one by one, and all that follows, as long as none of it holds the delimiter in force, is held and sent in one at the end of the file |
| ScriptHeld.WordSent | client/mysql.cc:2114-2129 | with text in hand a DELIMITER line is no command: one that names the delimiter in force sends the text with the word behind it, and where the server refuses that the client stops |
| ScriptHeld.WordHeld | client/mysql.cc:2114-2129 | one that names another delimiter becomes part of the text |
| ScriptHeld.RestCut | client/mysql.cc:1975-2130 | nothing behind a DELIMITER line so refused is ever read |
| ScriptHeld.SettingKept | client/mysqldump.c:772-792 | a statement that sets variables, printed with one semicolon, is held while two are the delimiter |
| ScriptHeld.SpelledRestHeld | client/mysqldump.c:763-806 | a dump that leaves two semicolons in force and prints no DELIMITER line behind that is sent statement by statement up to there, and the rest, its footer included, in one |
| SpellingReader.SetTextReads | client/mysqldump.c:728-792 | read back, a statement that sets variables says exactly which, to what, and from which server version on |
| SpellingReader.SpelledReads | client/mysqldump.c:1441-1525 | so does each setting in it |
| SpellingReader.AlterReads | client/mysqldump.c:1382-1438 | ALTER DATABASE names the database, the collation asked for and the character set that goes with it |
| Xml.PrintCdata | client/mysqldump.c:2077-2100 | the loop prints the section with every closing mark in the text split in two |
| Xml.CdataReadsBack | client/mysqldump.c:2077-2100 | parsed by section 2.7 of XML 1.0 the output gives the text with one newline on each side, and no section ends early |
| Xml.PrintComment | client/mysqldump.c:2190-2214 | the loop prints the text with each run of hyphens squeezed to one |
| Xml.CommentIsWellFormed | client/mysqldump.c:2190-2214 | between its marks the comment holds no double hyphen and no hyphen before the end mark, as section 2.5 of XML 1.0 requires |
| Xml.SqueezeKeepsText | client/mysqldump.c:2198-2211 | no other character is lost, and a text without a double hyphen is printed as it is |

## Left out

- SqlLexer.Step: multi-byte character sets are not modelled; characters are single bytes and collation is ASCII case folding where the word "delimiter" is looked for.
- SqlLexerProofs.SessionConsistent: the commands `\e` and `source` and the skipping of statements under `--one-database` are not modelled; other client commands send, clear or keep the buffer, and what they answer is a parameter. It is stated for comments that are not preserved, as a preserved comment may hold a lone quote.
- LexerContents.CommentLeavesBlank: stated for a comment that opens and closes on one line, with no other comment or delimiter on it; `CommentInLine` has the case with them.
- LexerBranches.CommentPreserved: stated where no blank is owed from a comment just before.
- SqlLexerProofs.EndConsistent: stated for a file read to its end; a `quit` in a batch file sends the buffer too.
- LineReader.LineBuffer.FillBuffer: an I/O error or a failed allocation ends the run and is not modelled; `realloc` is a new array.
- CompletionHash.HashTable.Update: bucket chains and entry lists are sequences instead of linked lists, so sharing of nodes is not captured; failed allocations are left out.
- CompletionGenerator.Generator.Next: a completion of the empty text on an empty table after an earlier completion left an entry behind is excluded; a table is emptied only by freeing it, and the source then reads the freed entry.
- WorkerPool.RunKeeps: the import of a file and its connection are single steps with an arbitrary outcome; timed waits may wake at any time, and joining the threads afterwards is not modelled.
- Flashback.PrintsReversal: printing is modelled as adding to a cache that an event with the end flag flushes; table maps, the inversion of each row, filters, verbose output and Stop events are left out. It is stated for logs in which a statement's maps precede its rows.
- LoadLog.LoadLogProcessor.ProcessFirst: temporary files get names no other file has, which the exclusive creation of the source sees to; I/O errors are left out.
- GetArg.GetArgument: the mode that continues behind an earlier argument is not modelled; a command of one backslash has its letter, as on a line without it the source reads past the terminator.
- Quoting.QuoteName: the buffer is large enough for the name, as every caller's is.
- InsertBatch.DumpRows: rows arrive rendered; how their values are written is left out, and lengths do not wrap around.
- Definer.CoverDefiner: both versions have five digits, as in every call.
- Definer.CoveredRuns: the text does not close the comment it is printed in.
- DumpWriter.Dump.DumpAll: a statement is kept as the settings it makes, not as its spelling. The client is `mysql` in batch mode without `--force`; statements other than the word DELIMITER are taken to succeed, and none to hold a delimiter in its own text. Dumps that are compact, XML or by `--tab`, triggers of servers without SHOW CREATE TRIGGER, and failing connections, queries and locks are left out. Each event, trigger and routine is one row. Altering a database's collation is a statement like any other: that an object is created while its database has that collation follows from the order of the statements, and is not stated of the server. What the statements run under is stated of servers from 5.1.6 on, which know all the settings.
- DumpWriter.Dump.DumpEvent: a bound that overflows in the search for a delimiter, which C leaves undefined, is taken to wrap around and end the search without one.
- ScriptCuts.SentWholeIff: stated for text that starts with something else than a blank and holds no comments for the client, no backslash command and no line that starts with the word DELIMITER, and for delimiters without quotes and blanks.
- DumpCuts.EventTextIsCut: about a reader that looks for the delimiter in strings too.
- SpellingReader.AlterReads: stated for names without blanks.
- DumpSpelling.SpelledScriptSent: names are in lower case, and blanks that only align are left out; statements that set nothing are spelled by a parameter. That the values a dump sets can be printed so, and that its statements neither end the session nor change the delimiter, is assumed of the script.
- ScriptHeld.SpelledRestHeld: the client runs without `--named-commands`; that the first line held is no command is assumed.
- ScriptReader.ScriptSent: stated for statements without comments for the client, which it would take out, and for lines the client does not take for commands.
- The option tables, tablespaces, replication status, and the programs mysqladmin, mysqlshow, mysqlcheck, mysql_upgrade and mysql_plugin are not part of this model.
