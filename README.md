# Scalix administration scripts, modelled in Dafny

This project models the logic of five Scalix administration scripts and
proves properties about it:

- `change_swa_preferences.py` edits the SWA (Scalix Web Access) preference
  message that is kept in the user's `#Scalix/Oddpost` IMAP folder. The
  model covers:
  - the reassembler that turns imaplib's FETCH response fragments back into
    response lines (`ImapResponse`);
  - the search for the `RFC822 {N}` literal;
  - the XML preference document and its `<preference name=...>` editor
    (`Preferences`);
  - the line-wise base64 fallback decoder;
  - the `OPTION=VALUE` settings parser;
  - the replace protocol (`SwaSync`): select, scan the envelope listing,
    fetch the body, edit it, flag the old messages `\Deleted`, append the
    new one, expunge, and roll back when the append fails.
- `shell_command.py` builds shell command lines (`ShellCommands`). The model
  covers:
  - I/O redirections;
  - quoting of arguments as `shlex.quote` does it;
  - `key=value` arguments;
  - the `>`, `<`, `>>`, `|`, `&&`, `||` and `+` combinators;
  - the stripped command line;
  - how `execute` classifies an exit code.
- `Imap_copy_Exim_to_Scalix.py` copies a mailbox from an Exim server to a
  Scalix server (`EximCopy`). The model covers:
  - parsing of the folder listing and the shortest-first sort;
  - mapping of folder names between the two servers;
  - folder creation;
  - the per-folder copy with its `\Seen` flag and `\Deleted` routing;
  - the counters the script reports.
- `sxstats.py` collects Java and host facts (`SystemInfo`). The model covers:
  - `java version "..."` parsing and the `1.` normalisation;
  - the IBM VM check;
  - the 32/64-bit machine tests;
  - the local-address test.
- `parse_tomcat_logs.py` groups the error entries of a Tomcat log by the
  caller class of their header line (`TomcatLogs`).

Where the source does work step by step or holds state, the model is
imperative:
- classes: `Connection`, `PreferenceDocument`, `PreferenceEmail`,
  `ShellCommand` and `JreInfo`;
- methods with loops: `BuildImapResponseLines`, `GroupErrors`,
  `AppendMessages` and the others.

Each such method is proved equal to a specification function. The
properties are proved as lemmas about those functions. `Common` holds the
shared sequence helpers:
- `Find`;
- `Split` and `Join`, with their round trips;
- the trims;
- decimal rendering.

Foreign code is passed in as parameters:
- the IMAP servers: `Server` answers, or `search`/`create`/`append`
  outcomes;
- the e-mail and XML libraries, as a `Library` value;
- the Tomcat header regular expression;
- the shell that runs a command line;
- the host name lookup.

## Model

| member | source | states |
|---|---|---|
| ImapResponse.BuildImapResponseLines | change_swa_settings/change_swa_preferences.py:236-255 | the generator's output collected: the yielded lines and the error it raises are exactly those of the reassembly function |
| ImapResponse.ReadLine | change_swa_settings/change_swa_preferences.py:247-254 | one pass of the inner loop: it stops after the first fragment that closes a line, or reports the error, in agreement with the group function |
| ImapResponse.GroupKeepsContent | change_swa_settings/change_swa_preferences.py:245-255 | a closed group ends in `)` and keeps every byte of text and every literal it consumed, in order |
| ImapResponse.LinesAreClosed | change_swa_settings/change_swa_preferences.py:252-255 | every yielded line ends in `)`: no partial line is ever yielded |
| ImapResponse.NothingLostOrDuplicated | change_swa_settings/change_swa_preferences.py:236-255 | the yielded lines are a prefix of the fragment stream cut into pieces: their texts and literals, concatenated, are those of the fragments consumed |
| ImapResponse.FailureExactly | change_swa_settings/change_swa_preferences.py:244-255 | the generator ends normally iff every fragment has text and the last one closes a line; it reports truncation iff the texts are present but the stream stops mid-line |
| ImapResponse.GroupShape | change_swa_settings/change_swa_preferences.py:247-254 | a group stops at the first fragment with no text (error) or whose text ends in `)`; a truncation means no fragment closed the line |
| ImapResponse.Rfc822SizeFrom | change_swa_settings/change_swa_preferences.py:290 | the leftmost match of `RFC822\s+\{(\d+)\}` at or after a position: a found size is announced at some position before which no position announces one, and None means no position announces one |
| ImapResponse.AnnouncementRecognised | change_swa_settings/change_swa_preferences.py:290 | a line that starts `RFC822 {n}` is read as announcing exactly `n`, for every `n` |
| ImapResponse.FirstOfLength | change_swa_settings/change_swa_preferences.py:293-294 | a literal found has exactly the wanted length and is one of the literals; None iff no literal has that length |
| ImapResponse.FirstOfLengthIsFirst | change_swa_settings/change_swa_preferences.py:293-294 | the literal found is the first of the wanted length: every literal before it has another length |
| ImapResponse.AsWrittenTakesWrongLiteral | change_swa_settings/change_swa_preferences.py:293-295 | the code as written returns the first literal even when its length differs from the announced size and the second literal matches |
| ImapResponse.MessageLiteralHasAnnouncedSize | change_swa_settings/change_swa_preferences.py:290-295 | the corrected lookup returns a literal of the line with exactly the announced size, and returns nothing iff there is no announcement or no literal of that size |
| ImapResponse.AsWrittenAgreesOnOneLiteral | change_swa_settings/change_swa_preferences.py:293-295 | with a single literal, as a normal `RFC822` FETCH reply carries, the code as written and the corrected lookup agree |
| ImapResponse.LocatedInSomeLine | change_swa_settings/change_swa_preferences.py:289-305 | a body the line loop locates is the body of one of the lines |
| ImapResponse.NothingLocated | change_swa_settings/change_swa_preferences.py:289-305 | the line loop locates nothing iff no line carries a body of its announced size |
| ImapResponse.LocatedHasAnnouncedSize | change_swa_settings/change_swa_preferences.py:278-310 | (corrected; see Findings) a body that the fetch locates is a literal of the reply whose size is the one announced on its line |
| Preferences.FirstMatch | change_swa_settings/change_swa_preferences.py:346-349 | the index of the first element that `.//preference[@name=...]` selects: it is selected, nothing before it is, and None iff nothing is |
| Preferences.SetOptionChangesFirstMatchOnly | change_swa_settings/change_swa_preferences.py:346-355 | setting an option replaces only the text of the first selected element and leaves a document with no match unchanged |
| Preferences.SetOptionEffect | change_swa_settings/change_swa_preferences.py:338-355 | setting keeps every element's tag and name in place, makes the option read back its new value when it exists, and leaves every other option as it was |
| Preferences.SetOptionIdempotent | change_swa_settings/change_swa_preferences.py:338-355 | setting the same option to the same value twice equals setting it once |
| Preferences.SetOptionCommutes | change_swa_settings/change_swa_preferences.py:398-399 | options with different names can be applied in either order |
| Preferences.ApplyOptionsKeepsSkeleton | change_swa_settings/change_swa_preferences.py:398-399 | applying the options loop never adds, removes or renames an element |
| Preferences.ApplyOptionsLookup | change_swa_settings/change_swa_preferences.py:398-399 | after the loop over distinct options, an option that was given a value and exists reads that value, and every other option reads as before |
| Preferences.PreferenceDocument.FindOptionAndChange | change_swa_settings/change_swa_preferences.py:338-355 | edits the document in place into the set-option result and returns True iff an element was selected |
| Preferences.SplitTerminatedLines | change_swa_settings/change_swa_preferences.py:153-154 | `splitlines` of text made of `\n`- or `\r\n`-terminated lines gives those lines back |
| Preferences.NonEmptyLines | change_swa_settings/change_swa_preferences.py:155 | `filter(None, ...)` keeps no empty line and never lengthens the list |
| Preferences.DecodePayloadIsFilterThenMap | change_swa_settings/change_swa_preferences.py:148-159 | the decoder drops the empty lines, then decodes exactly the lines that look like base64 and keeps the rest, one output line per kept line |
| Preferences.PreferenceEmail.constructor | change_swa_settings/change_swa_preferences.py:79-81 | a new e-mail holds its UID and message and no parsed document |
| Preferences.PreferenceEmail.Preferences | change_swa_settings/change_swa_preferences.py:101-123 | the property returns the document the caching policy gives and caches it: a non-empty cached document is returned as the same object, a missing or empty one (false in Python) is parsed into a new object; an error leaves the cache as it was |
| Preferences.PreferenceEmail.AsBytes | change_swa_settings/change_swa_preferences.py:178-189 | the current document is serialised back into the message, which becomes the bytes returned; an error changes nothing |
| Preferences.ReadPreferencesTwice | change_swa_settings/change_swa_preferences.py:101-123 | after a non-empty document is read, a second read returns the same object with the same fields whatever the library would parse by then; after an empty one, the second read parses the message again into a new object or raises; after an error, the second read follows the caching policy from the old cache |
| Preferences.CreatePreferenceMessage | change_swa_settings/change_swa_preferences.py:359-370 | a fresh e-mail with UID 0 whose message is composed from the template |
| Preferences.AssignEffect | change_swa_settings/change_swa_preferences.py:457-458 | assigning into the settings dict keeps its keys distinct, stores the value under its key and leaves other keys unchanged |
| Preferences.ParseSettings | change_swa_settings/change_swa_preferences.py:452-458 | the `--settings` loop computes the settings function on the arguments; on success the keys are distinct and every option holds the value of the last argument naming it (the text after its first `=`, quotes stripped), and no other option is set |
| Preferences.SettingsValues | change_swa_settings/change_swa_preferences.py:452-458 | from a dict with distinct keys, an accepted argument list gives each option the value of the last argument naming it, and leaves an option no argument names as it was |
| Preferences.LastSettingCons | change_swa_settings/change_swa_preferences.py:452-458 | an argument in front only decides an option's value when no later argument names the option |
| Preferences.SettingsErrors | change_swa_settings/change_swa_preferences.py:452-458 | the arguments are rejected iff one of them has no `=`, the error names that argument, and an accepted dict has distinct keys |
| SwaSync.Connection.constructor | change_swa_settings/change_swa_preferences.py:373 | a connection to a server that has been sent nothing yet |
| SwaSync.Connection.SelectFolder | change_swa_settings/change_swa_preferences.py:381-384 | records SELECT and returns the server's status and message count |
| SwaSync.Connection.FetchListing | change_swa_settings/change_swa_preferences.py:326 | records the envelope FETCH and returns the server's listing |
| SwaSync.Connection.FetchMessage | change_swa_settings/change_swa_preferences.py:286-289 | records the UID FETCH of a body and returns the server's reply for that UID |
| SwaSync.Connection.Store | change_swa_settings/change_swa_preferences.py:405-408 | records the UID STORE that flags the UIDs `\Deleted` and returns the server's status |
| SwaSync.Connection.Unstore | change_swa_settings/change_swa_preferences.py:421 | records the UID STORE that removes `\Deleted` from a UID and returns the server's status |
| SwaSync.Connection.AppendMessage | change_swa_settings/change_swa_preferences.py:416-418 | records the APPEND of the message to the folder and returns the server's status |
| SwaSync.Connection.ExpungeFolder | change_swa_settings/change_swa_preferences.py:424 | records EXPUNGE |
| SwaSync.UidFrom | change_swa_settings/change_swa_preferences.py:328 | the leftmost match of `UID\s(\d+)`: a found UID is matched at some position before which no position matches, and None means no position matches |
| SwaSync.UidTokenRecognised | change_swa_settings/change_swa_preferences.py:328 | a listing line `UID n ...` yields the UID `n`, for every `n` |
| SwaSync.ScanAfterFound | change_swa_settings/change_swa_preferences.py:331-334 | once a message is found, every later eligible line only adds its UID to the orphans and sends nothing |
| SwaSync.ScanReference | change_swa_settings/change_swa_preferences.py:313-335 | the line-by-line scanner equals the reference description: fetch the eligible UIDs in order up to the first decisive one, which is the found message or the failure, and make every later eligible UID an orphan |
| SwaSync.FetchMessageRfc822 | change_swa_settings/change_swa_preferences.py:278-310 | (corrected; see Findings) sends one body fetch and returns the message, nothing, or the failure that the fetch function gives for the reply |
| SwaSync.LocateBody | change_swa_settings/change_swa_preferences.py:289-305 | (corrected; see Findings) the loop over the reply's lines returns the body the line function locates |
| SwaSync.FindLiteral | change_swa_settings/change_swa_preferences.py:293-295 | (corrected; see Findings) the loop over the literals returns the first one of the announced size |
| SwaSync.ScanListingLine | change_swa_settings/change_swa_preferences.py:327-334 | one iteration of the listing loop has the effect of the scan step on the found message, the orphans and the commands sent |
| SwaSync.FindSwaPreferenceEmail | change_swa_settings/change_swa_preferences.py:313-335 | the whole search sends the commands and returns the message, orphans and failure of the scan function |
| SwaSync.ScanListing | change_swa_settings/change_swa_preferences.py:327-334 | the loop over the listing lines sends the commands of the scan and returns its message, orphans and failure |
| SwaSync.ApplySettings | change_swa_settings/change_swa_preferences.py:398-399 | every option is applied in order to the loaded document, which is cached on the e-mail; a load error stops before any change |
| SwaSync.SaveSettings | change_swa_settings/change_swa_preferences.py:401-424 | (corrected; see Findings) everything after the scan (options, STORE, APPEND, rollback, EXPUNGE) sends exactly the commands of the protocol function and ends with its outcome; when the document loads and the APPEND succeeds it sends one STORE flagging every orphan and the previous message, the APPEND of the message carrying the edited document, and EXPUNGE, and ends normally |
| SwaSync.WriteBack | change_swa_settings/change_swa_preferences.py:401-424 | (corrected; see Findings) the writes (STORE, serialisation, APPEND, rollback, EXPUNGE) send exactly the commands of the write function and end with its outcome; when the document serialises and the APPEND succeeds they are one STORE of the orphans and the previous message, the APPEND, and EXPUNGE, and end normally |
| SwaSync.StoreOf | change_swa_settings/change_swa_preferences.py:401-408 | the one STORE flags exactly the orphans and the previous message (when there is one), and is left out iff there is neither |
| SwaSync.SyncSucceeds | change_swa_settings/change_swa_preferences.py:373-424 | when SELECT, the scan, the parse and the APPEND succeed, the run is SELECT, the scan's reads, one STORE flagging every orphan and the previous message, the APPEND of the message carrying the options applied to the loaded document, and EXPUNGE, and ends normally |
| SwaSync.WriteRunExpunges | change_swa_settings/change_swa_preferences.py:416-424 | the writes expunge iff they succeed, and then EXPUNGE directly follows the APPEND |
| SwaSync.WriteRunTouchesOnly | change_swa_settings/change_swa_preferences.py:401-421 | the writes flag and unflag only the orphans and the edited message |
| SwaSync.SurveyFolder | change_swa_settings/change_swa_preferences.py:381-396 | the scan is skipped when SELECT reports no messages, and otherwise sends what the survey function does and returns its message or the template |
| SwaSync.ChangeSwaSettings | change_swa_settings/change_swa_preferences.py:373-424 | (corrected; see Findings) the whole replace sends exactly the commands of the protocol function, in order, and returns its outcome |
| SwaSync.ScanLinesOnlyReads | change_swa_settings/change_swa_preferences.py:313-335 | the scan sends only read commands |
| SwaSync.SurveyOnlyReads | change_swa_settings/change_swa_preferences.py:386-393 | the survey before the edit never changes the folder |
| SwaSync.FailedAppendRun | change_swa_settings/change_swa_preferences.py:416-422 | when the append fails, the run is SELECT, the scan, STORE of the orphans and the edited UID, the APPEND, then the rollback's commands, and it ends as the rollback does |
| SwaSync.AsWrittenRollbackLeavesPreviousFlagged | change_swa_settings/change_swa_preferences.py:419-421 | as written, the rollback passes an `int` UID, imaplib raises TypeError, and the previous preference message stays flagged `\Deleted` |
| SwaSync.FailedAppendRestoresPrevious | change_swa_settings/change_swa_preferences.py:419-422 | with the UID passed as text, a failed append clears the flag of the previous message again and reports "Could not save email" |
| SwaSync.RollbackOnlyOnFailedAppend | change_swa_settings/change_swa_preferences.py:416-424 | when the append succeeds, the script as written and the corrected one send the same commands with the same outcome |
| SwaSync.ExpungeOnlyAfterSave | change_swa_settings/change_swa_preferences.py:416-424 | EXPUNGE is sent iff the run succeeds, and then as the last command, right after the APPEND |
| SwaSync.SurveyWithinListing | change_swa_settings/change_swa_preferences.py:323-334 | a completed scan edits a listed message or a new one, and its orphans are all listed preference messages |
| SwaSync.FlagsOnlyListed | change_swa_settings/change_swa_preferences.py:401-421 | only preference messages from the listing are ever flagged or unflagged |
| SwaSync.RejectedDocument | change_swa_settings/change_swa_preferences.py:398-418 | an unparsable body with no template allowed raises SystemError, is never expunged, writes nothing when there are options, and otherwise is flagged before the error |
| SwaSync.EmptyFolderFetchesNothing | change_swa_settings/change_swa_preferences.py:387-390 | a folder reported empty is not scanned: after SELECT nothing is fetched, flagged or unflagged |
| TomcatLogs.Describe | tomcat-logs-parser/parse_tomcat_logs.py:49-53 | a description keeps the date, caller and text of its groups and stores the level stripped of ASCII whitespace |
| TomcatLogs.LevelStripped | tomcat-logs-parser/parse_tomcat_logs.py:51 | the stored level has no whitespace at either end and differs from the captured level only by whitespace removed at its ends |
| TomcatLogs.CallerClassIsFirstPart | tomcat-logs-parser/parse_tomcat_logs.py:55-61 | the caller class is a prefix of the caller with no `.` in it, ending at the first `.` or at the end |
| TomcatLogs.LineDescription | tomcat-logs-parser/parse_tomcat_logs.py:75-86 | None iff the line is empty or the pattern does not match; otherwise the description of the match |
| TomcatLogs.Classify | tomcat-logs-parser/parse_tomcat_logs.py:89-99 | a line is plain iff it has no description, ignored iff its description is on the ignore lists, and a kept header carries its caller class |
| TomcatLogs.EntriesAreKeptHeaders | tomcat-logs-parser/parse_tomcat_logs.py:112-136 | every saved entry starts with a kept header of its class and continues with plain lines only |
| TomcatLogs.ProcessEmitsEntries | tomcat-logs-parser/parse_tomcat_logs.py:122-136 | the line-by-line state machine adds, for every class, exactly the count and the lines of the entries that the direct description gives |
| TomcatLogs.GroupErrors | tomcat-logs-parser/parse_tomcat_logs.py:102-137 | a missing file gives empty results; otherwise each class maps to the number of its entries and to their lines in order, and the two maps have the same keys and no zero count |
| ShellCommands.Render | sxstats/shell_command.py:43-44 | a redirection renders as its input, its operator and its output, in that order and nothing else |
| ShellCommands.ErrorToOut | sxstats/shell_command.py:47-52 | the stderr-to-stdout redirection renders as `2>&1` |
| ShellCommands.IsQuotedAsWritten | sxstats/shell_command.py:55-61 | as written, `is_quoted` raises IndexError iff the string is empty, and otherwise answers whether it is longer than one character and starts and ends with a quote |
| ShellCommands.QuoteReadsBack | sxstats/shell_command.py:151 | a POSIX shell reads the `shlex.quote` of any string back as exactly that string, as one word |
| ShellCommands.PreparedArgumentReadsBack | sxstats/shell_command.py:146-156 | every text argument that is not already quoted is read back by the shell as itself |
| ShellCommands.AsWrittenRejectsEmptyArgument | sxstats/shell_command.py:146-153 | as written, an empty argument raises IndexError; the corrected preparation quotes it as `''`; on every other argument the two agree |
| ShellCommands.Keyword | sxstats/shell_command.py:157-158 | a keyword argument becomes the key, `=`, then the value |
| ShellCommands.BuildStripsOnlySpace | sxstats/shell_command.py:276-282 | the built line is the command and its space-joined arguments with only surrounding whitespace removed |
| ShellCommands.Classify | sxstats/shell_command.py:308-326 | exit code 0 returns the output, 127 reports the command as not found, and any other code reports a failed command with its response |
| ShellCommands.ShellCommand.constructor | sxstats/shell_command.py:134-137 | (corrected; see Findings) a new command holds its name and its prepared positional and keyword arguments |
| ShellCommands.ShellCommand.AppendArguments | sxstats/shell_command.py:139-158 | (corrected; see Findings) appends the prepared positional arguments and then the keyword arguments, in order, after the existing ones |
| ShellCommands.ShellCommand.Extend | sxstats/shell_command.py:184-189 | (corrected; see Findings) extends the arguments the same way as construction does |
| ShellCommands.ShellCommand.Redirect | sxstats/shell_command.py:193-218 | `>`, `<` and `>>` append the operator and the operand's text to the arguments and return the same command |
| ShellCommands.ShellCommand.Chain | sxstats/shell_command.py:220-240 | `\|\|` and `&&` append the operator and the other command's line, and raise RuntimeError for an operand that is not a command |
| ShellCommands.ShellCommand.Pipe | sxstats/shell_command.py:242-255 | `+` appends `\|` and the other command's line for a command, the rendered redirection for a redirection, and raises RuntimeError for anything else |
| ShellCommands.ShellCommand.Execute | sxstats/shell_command.py:308-326 | runs the built line once and classifies the response |
| ShellCommands.UnifyNewlinesDropsCRBeforeLF | sxstats/shell_command.py:71 | replacing `\r\n` by `\n` drops exactly the carriage returns that stand right before a line feed and keeps every other character in order, so `"\r\r\n"` becomes `"\r\n"` |
| ShellCommands.UnifyNewlinesOnlyDropsCR | sxstats/shell_command.py:64-71 | replacing `\r\n` by `\n` keeps the text outside carriage returns, never lengthens it and is the identity on text without `\r\n` |
| ShellCommands.UsingCommandFullPath | sxstats/shell_command.py:74-89 | the path lookup is `$(which name)` or `$(type -P name)` as the flag says, with the exact length |
| EximCopy.ResultFolderShape | Imap_copy_Exim_to_Scalix.py:106-114 | a mapped folder takes its table name; any other folder is a quote followed by its name after the first seven characters, with dots turned to slashes |
| EximCopy.ResultFolders | Imap_copy_Exim_to_Scalix.py:93-104 | the loop builds the list of the mapped names of the folders |
| EximCopy.MapNamesElements | Imap_copy_Exim_to_Scalix.py:93-104 | the mapped list has one entry per folder, and entry `i` is the mapped name of folder `i` |
| EximCopy.SecondPiece | Imap_copy_Exim_to_Scalix.py:86 | the text after the first splitter of a listing line, or None when the line has no splitter |
| EximCopy.ListedNamesPieces | Imap_copy_Exim_to_Scalix.py:84-86 | one name per listing line, in order, each the second piece of its line; None iff some line has no splitter |
| EximCopy.SortByLengthIsStableSort | Imap_copy_Exim_to_Scalix.py:88 | `sort(key=len)` gives a permutation, sorted by length, in which names of equal length keep their listing order |
| EximCopy.GetFolders | Imap_copy_Exim_to_Scalix.py:72-90 | the folder names of the listing sorted by length, or a failure when a listing line cannot be split |
| EximCopy.MessageAppend | Imap_copy_Exim_to_Scalix.py:197-206 | the append built for one message is the one its flags call for: `(\Seen)` or `()`, and "Deleted Items" for a `\Deleted` message, its folder's mapped name otherwise |
| EximCopy.CopyFlags | Imap_copy_Exim_to_Scalix.py:197-200 | the appended message is flagged `(\Seen)` iff its flags contain `\Seen`, and `()` otherwise |
| EximCopy.Destination | Imap_copy_Exim_to_Scalix.py:202-206 | a `\Deleted` message goes to the deleted-items folder, any other to its folder's mapped name |
| EximCopy.CopyCounters | Imap_copy_Exim_to_Scalix.py:167-210 | when no folder aborted the copy, the total is the number of appends, the successes count the appends that returned OK, and total minus successes is the number answered otherwise |
| EximCopy.AppendsGoWhereMapped | Imap_copy_Exim_to_Scalix.py:175-208 | every append copies a message of a copied folder: its body, `(\Seen)` or `()` as the message was seen, and as folder the deleted-items folder when the message is `\Deleted` and its folder's mapped name otherwise |
| EximCopy.CreatesExactly | Imap_copy_Exim_to_Scalix.py:137-145 | a CREATE is sent exactly for the mapped names whose select fails, each with a trailing `/` |
| EximCopy.ReportedErrors | Imap_copy_Exim_to_Scalix.py:220-223 | a finished copy reports as errors exactly the appends that did not return OK |
| EximCopy.FolderAppendsElements | Imap_copy_Exim_to_Scalix.py:180-208 | one append per message of the folder, in order, each the append the message's flags call for |
| EximCopy.CopyFolder | Imap_copy_Exim_to_Scalix.py:147-208 | one folder: `-1` when its select or its search fails, otherwise its appends, with the message count added to the total and the OK answers counted |
| EximCopy.CopyMessages | Imap_copy_Exim_to_Scalix.py:180-210 | the loop over the messages of one folder makes the appends of the specification and counts the successes |
| EximCopy.CreateFolders | Imap_copy_Exim_to_Scalix.py:137-145 | the create loop issues the creates of the specification |
| EximCopy.CopyAll | Imap_copy_Exim_to_Scalix.py:147-210 | the folder loop gives the specification's appends and counters, and stops at the first folder whose select or search fails |
| EximCopy.AppendMessages | Imap_copy_Exim_to_Scalix.py:126-223 | the whole copy equals the copy-mailbox specification: creates, appends and outcome |
| SystemInfo.VersionIn | sxstats/sxstats.py:35-45 | a matched version is what lies between `java version "` and the final quote of the stripped line |
| SystemInfo.VersionInMatchesPattern | sxstats/sxstats.py:35-45 | a stripped line yields a version iff it matches `^java version "(.*)"$` |
| SystemInfo.LastVersionIsLastMatch | sxstats/sxstats.py:41-49 | the version kept is that of the last matching line, and None iff no line matches |
| SystemInfo.NormalizeDropsLegacyPrefix | sxstats/sxstats.py:46-49 | a version starting `1.` loses every leading `1` and `.`, and any other version is kept unchanged |
| SystemInfo.NormalizeExamples | sxstats/sxstats.py:46-49 | `1.8.0_151` normalises to `8.0_151`, and `1.1.0` to `0` because `lstrip` strips a character set |
| SystemInfo.SearchIbmVm | sxstats/sxstats.py:56-59 | a True answer means some position matches `IBM\s(\w+)\sVM` |
| SystemInfo.SearchFindsPattern | sxstats/sxstats.py:37 | the search answers True iff some position matches `IBM\s(\w+)\sVM` |
| SystemInfo.JreInfo.constructor | sxstats/sxstats.py:39-49 | keeps every line, in order, and sets the original and normalised version from the last matching line |
| SystemInfo.JreInfo.ReadLine | sxstats/sxstats.py:41-49 | one iteration of the constructor's loop: stores the line and updates the versions when the line matches |
| SystemInfo.JreInfo.IsIbmJre | sxstats/sxstats.py:51-59 | True iff some stored line contains an IBM VM mention |
| SystemInfo.JreInfo.StrSplitsBack | sxstats/sxstats.py:67-68 | the newline-joined text splits back into the stored lines when no line has a newline |
| SystemInfo.Is64Bit | sxstats/sxstats.py:100-105 | True iff the machine name is `x86_64`, which is never also 32-bit |
| SystemInfo.Is32Bit | sxstats/sxstats.py:107-112 | True only for a four-character name of the form `i?86` |
| SystemInfo.Is32BitShape | sxstats/sxstats.py:107-112 | a machine name is 32-bit iff it reads `i386`, `i586` or `i686`: four characters, `i`, one of `3`, `5`, `6`, then `86` |
| SystemInfo.OtherMachinesUnclassified | sxstats/sxstats.py:100-112 | `i486` and `aarch64` are neither 32-bit nor 64-bit to the script |
| SystemInfo.IpAddresses | sxstats/sxstats.py:124-133 | the addresses of the host lookup, or only the loopback address `127.0.0.1` when the lookup fails |
| SystemInfo.AssignedToLocalIp | sxstats/sxstats.py:135-148 | None (IndexError) iff the lookup answers with no address; otherwise whether the first address starts `127.`, so a failed lookup counts as local |

## Left out

- Network and sockets: the IMAP servers, their connection, login and
  logout are parameters (`Server`, `search`/`create`/`append` outcomes).
  They are not implementations.
- SwaSync: the server's answers do not depend on the commands already sent.
  The script never reads the folder after its first write, so nothing here
  depends on that.
- SwaSync: the status of EXPUNGE is ignored, as the script ignores it.
- Regular expressions: the Tomcat header pattern is a parameter.
- Regular expressions and `str.strip()`: on bytes, `\s` is ASCII whitespace,
  as in Python. On `str`, `\s` and `str.strip()` are modelled over the
  Latin-1 whitespace only (`IsSpaceChar`). The other Unicode separators,
  such as U+2000 to U+200A and U+3000, are not modelled.
- Regular expressions: `\w` on `str` is modelled over ASCII letters,
  digits and `_` only. Python 3 also matches other Unicode letters and digits.
- XML, e-mail and base64: the `ElementTree`, `email` and `body_decode`
  libraries are a `Library` value. XPath name quoting and nested elements
  are not modelled.
- Preferences: errors that `BytesParser` raises for malformed messages are
  not modelled.
- Preferences.ParsePreferences: `get_content` is a total library function
  that gives the text or reports invalid base64. Under the strict policy it
  also raises on other base64 padding and length defects, and only
  InvalidBase64CharactersDefect is handled. `body_decode` raises
  binascii.Error on a malformed line. Neither exception is modelled.
- ImapResponse: a fetch reply holds text fragments and (text, literal)
  pairs only. imaplib's `[None]` reply is not representable. On it the
  reassembler fails with TypeError (`None[-1]`).
- SwaSync: the CHECK command that `fetch_from_imap` sends before every
  fetch is not modelled. So the runs list every command except CHECK.
- SwaSync.UidFrom: reads the UID as a number, so leading zeros are not kept
  in the text of a UID.
- TomcatLogs: the file is given as `Option` (missing or its lines), and the
  result dicts are maps without insertion order.
- ShellCommands: running a command (`run`, `__call__`, the subprocess) is a
  parameter of `Execute`.
- ShellCommands: `name`, `basename`, iterating over a `Response` and the
  `pipes.quote` fallback for Python 2 are not modelled.
- ShellCommands: any other object given as an argument is modelled by its
  `str()` text.
- ShellCommands.ShellCommand.Equals: `__eq__` compares the built lines. It
  has no contract of its own.
- EximCopy: undecodable UTF-8 is not modelled.
- EximCopy: the status of LIST is ignored, as the script ignores it; the
  listing is given as its lines.
- EximCopy: whether a destination folder exists is a fixed function, so a
  CREATE never changes a later select. Two source folders that map to one
  name (`INBOX.Sent` and `INBOX.Sent Items`) are both copied into it.
- EximCopy: a failed FETCH of a single message is not modelled.
- EximCopy: the listing and the flags are text. Under Python 3 imaplib
  returns bytes, and the script's string handling assumes Python 2.
- EximCopy: progress prints and `LOG_LEVEL` are output only.
- EximCopy: `list.sort` is specified as a stable sort by length. The model
  does not copy its algorithm.
- SystemInfo: `System.__init__`, `fqdn`, the package queries, `jre_version`
  (a subprocess) and the `__str__` report template are I/O or formatting.
  They are not modelled.
- SystemInfo: `JREInfo.__repr__` and `__unicode__` are not modelled.
- SystemInfo: reading a version attribute that was never set raises
  AttributeError in the source. The model gives `None` there.
- SystemInfo.IpAddresses: the host lookup is a parameter.

## Findings

| source | as written | input that shows it | evidently intended | confidence | as-written member | corrected member |
|---|---|---|---|---|---|---|
| change_swa_settings/change_swa_preferences.py:293-295 | the size of the literal is checked, but `literals[0]` is returned whatever literal matched | a FETCH line announcing `{5}` whose literals are `b"ab"` and `b"hello"` | return the literal whose length equals the announced size | not executed | ImapResponse.AsWrittenTakesWrongLiteral | ImapResponse.MessageLiteralHasAnnouncedSize |
| change_swa_settings/change_swa_preferences.py:419-421 | the rollback passes the `int` UID to `conn.uid('STORE', ...)`, which imaplib cannot send (TypeError) | SELECT and STORE succeed, a preference message with UID 7 exists, and APPEND fails | send the UID as text, so the flag is removed and "Could not save email" is raised | not executed | SwaSync.AsWrittenRollbackLeavesPreviousFlagged | SwaSync.FailedAppendRestoresPrevious |
| sxstats/shell_command.py:61 | `is_quoted` indexes `data[0]` before checking the length | `ShellCommand("echo", "")` raises IndexError | quote the empty argument as `''` | not executed | ShellCommands.AsWrittenRejectsEmptyArgument | ShellCommands.PreparedArgumentReadsBack |
