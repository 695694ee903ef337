# rotator, modelled in Dafny

`rotator` relays the lines of an input stream (standard input by default) to a
file, one record per line, through the `rotator` logger of Python's `logging`
package, and lets the file be rotated underneath it. A `Rotator` attaches one
handler to the logger and can `reopen`, which swaps that handler for a fresh
one. It reads its input either by iterating over the stream (buffered) or by a
read-then-check loop (unbuffered), strips the newlines from both ends of each
line and logs it. Three kinds of rotator differ in the handler they build:

- `Watched` uses a `WatchedFileHandler`, which reopens its file when the file
  is moved;
- `Signaled` uses a plain `FileHandler` and reopens it when a named signal
  arrives, checking first that the signal name exists;
- `Rotated` uses a `RotatingFileHandler` whose size limit is parsed from a
  human-readable size such as `"10 MB"`.

The model is six modules:

- `Errors` holds the error, `Result` and `Option` types.
- `Size` holds the size grammar, its meaning, the parser, and soundness and
  completeness proofs.
- `Signals` holds the signal table and the name lookup.
- `Lines` holds `strip('\n')`, the input stream as a class, and two
  reference definitions of the lines of an input that are proved equal.
- `Logging` holds handlers, the logger as a class, and the add/remove list
  updates.
- `Rotators` holds the `Rotator` and `Signaled` classes and the
  `Watched`/`Rotated` factory methods.

The logger keeps a ghost `history` of every handler list it has had. That
lets `Reopen` state that the logger has at least one handler at every step of
the swap.

## Model

| member | source | states |
|---|---|---|
| Size.ParseSize | rotator.py:91-107 | a failed parse carries the rejected string as its error |
| Size.Match | rotator.py:94-95 | a match's first group is a non-empty run of digits and its second group is empty or a two-letter unit |
| Size.MatchTail | rotator.py:94 | the unit group found is empty or a unit |
| Size.MatchComplete | rotator.py:94-95 | every string of the form spaces, digits, spaces, optional unit, spaces is matched, with exactly those digits and that unit as the groups |
| Size.MatchSound | rotator.py:94-97 | every match comes from such a decomposition of the whole string |
| Size.MatchTailComplete | rotator.py:94 | spaces, an optional unit, then spaces to the end are matched, yielding that unit |
| Size.MatchTailSound | rotator.py:94 | a matched tail splits into spaces, the unit found and trailing spaces |
| Size.ScaleByUnit | rotator.py:102-107 | for a unit, kB, MB and GB in any case multiply the number by 1024 to the power 1, 2 and 3 |
| Size.ParseAccepts | rotator.py:94-107 | every string in the grammar parses to the value of its digits scaled by its unit |
| Size.ParseSound | rotator.py:94-107 | every successful parse has a grammar decomposition whose value is the result |
| Size.ParseRejects | rotator.py:95-97 | the parse fails exactly when the string is not in the grammar, and the error names that string |
| Size.WhitespaceIrrelevant | rotator.py:94 | surrounding whitespace, and whitespace between the number and the unit, does not change the result |
| Size.DecimalValue | rotator.py:98 | `int` of a digit string (leading zeros allowed) is below 10 to the number of digits; PlainNumber and NatTextValue relate it to the parser and to `str` |
| Size.Lower | rotator.py:102-106 | `lower()` on one character leaves no upper-case letter, changes only A to Z, and maps each to the lower-case letter at the same place |
| Size.PlainNumber | rotator.py:98-101 | a bare digit string parses to its decimal value |
| Size.UnitMultipliers | rotator.py:102-107 | digits followed by kB, MB or GB (any case) parse to the value times 1024, 1024^2 and 1024^3 |
| Size.IntText | rotator.py:86 | `str(n)` is a non-empty digit string for `n >= 0`, and a minus sign followed by digits for a negative `n` |
| Size.NatTextValue | rotator.py:86 | the decimal text of a natural number is a digit string whose value is that number |
| Size.IntTextRoundTrip | rotator.py:86 | parsing `str(n)` gives back `n` for `n >= 0` and fails for a negative `n` |
| Size.AcceptedPlain | test.py:100 | "1024" parses to 1024 |
| Size.AcceptedKilobytes | test.py:101 | "1024 kB" parses to 1024 * 1024 |
| Size.AcceptedMegabytes | test.py:102 | " 1 MB  " parses to 1024 * 1024 |
| Size.AcceptedGigabytes | test.py:103 | " 1 gb  " parses to 1024^3 |
| Size.RejectedEmpty | test.py:111 | the empty string is rejected |
| Size.RejectedGarbage | test.py:112 | "0s98f" is rejected |
| Size.RejectedTerabytes | test.py:113 | "10294 TB" is rejected |
| Signals.Lookup | rotator.py:67-69 | a name is accepted exactly when `SIG` + name is in the platform's table, the signal is that entry, and the error names the signal |
| Signals.LookupHandlerConstants | rotator.py:67-69 | the attribute test also accepts "_DFL", yielding 0, which is no signal, and "_IGN", yielding 1, the same number as the default "HUP" |
| Signals.LookupDefault | rotator.py:66 | the default name "HUP" yields signal 1 |
| Signals.LookupUser1 | test.py:84 | "USR1" yields signal 10 |
| Signals.LookupUnknown | test.py:90-93 | "JSLFJKSFJ" is rejected with that name in the error |
| Signals.LookupCaseSensitive | rotator.py:67 | names are not case-folded: "hup" is rejected |
| Signals.LookupNoPrefix | rotator.py:67 | the name must not carry its own prefix: "SIGHUP" is rejected |
| Lines.Strip | rotator.py:38 | `strip('\n')` leaves no newline at either end and never lengthens the line; StripKeepsMiddle and the rows below pin down what is kept |
| Lines.StripLeading | rotator.py:38 | the result starts with no newline and is no longer than the input |
| Lines.StripTrailing | rotator.py:38 | the result ends with no newline and is no longer than the input |
| Lines.StripLeadingDrops | rotator.py:38 | exactly a prefix of newlines is removed |
| Lines.StripTrailingDrops | rotator.py:38 | exactly a suffix of newlines is removed |
| Lines.StripShape | rotator.py:44 | a stripped line has no newline at either end, and a line without one is unchanged |
| Lines.StripKeepsMiddle | rotator.py:44 | stripping keeps a contiguous part of the line and drops only newlines, outside that part |
| Lines.StripTerminated | rotator.py:44 | a line read back with its terminating newline is relayed as written |
| Lines.StripIdempotent | rotator.py:44 | stripping twice is stripping once |
| Lines.EofIndex | rotator.py:43 | the end of input is the first empty read result, and every result before it is non-empty |
| Lines.Stripped | rotator.py:37-38 | stripping line by line keeps the number of lines |
| Lines.StrippedAt | rotator.py:37-38 | the i-th line out is the i-th line in, stripped |
| Lines.UntilEofIsStrippedPrefix | rotator.py:36-47 | the read-then-check relay yields exactly the results before end of input, stripped and in order |
| Lines.UntilEof | rotator.py:41-47 | the read-then-check relay as a function: one line per result before the first empty one |
| Lines.UntilEofAt | rotator.py:41-47 | the unbuffered relay yields one line per result before end of input, the i-th being that result stripped |
| Lines.UntilEofIgnoresRest | rotator.py:43-47 | whatever follows the first empty result is neither relayed nor consumed |
| Lines.LinesWritten | rotator.py:41-47 | the lines of a file, each read back with its newline appended (`Terminated`: what reading a file returns, an assumption about the content rather than an operation of the source), are relayed exactly as written |
| Lines.BareLinesUnchanged | test.py:59-63 | non-empty lines without newlines at their ends pass through unchanged |
| Lines.ThousandHellos | test.py:59-63 | 1000 "hello" lines and end of input relay to the 1000 lines |
| Lines.InputStream.ReadLine | rotator.py:42-45 | a read returns the next result and consumes it, or returns "" once results run out |
| Lines.InputStream.Next | rotator.py:37 | one iteration step yields the next non-empty line, or ends at an empty result, consuming one result if one is left |
| Logging.Attach | rotator.py:28 | the handler is attached, nothing else is added or removed, duplicates are not created, and the length grows by one only if the handler was absent |
| Logging.Detach | rotator.py:29 | the result holds only handlers of the list, keeps every other handler, is one shorter exactly when the handler was attached, and no longer holds it when the list was duplicate-free |
| Logging.DetachMultiset | rotator.py:29 | exactly one copy of the handler is removed, if there is one, and every other entry stays as many times as it was there |
| Logging.SwapHandlers | rotator.py:24-30 | attach-then-detach never leaves the logger empty, and ends with the old handlers plus the new one minus the old one |
| Logging.DetachFirstLeavesNone | rotator.py:26-29 | the opposite order would leave a one-handler logger with no handler in between |
| Logging.SwapWithItself | rotator.py:28-30 | reopening with the handler already in use detaches it |
| Logging.Deliveries | rotator.py:53-54 | one record per message |
| Logging.DeliveredInOrder | rotator.py:53-54 | the i-th record carries the i-th message and goes to the handlers attached throughout |
| Logging.Logger.constructor | rotator.py:20 | a fresh logger has no handlers and no records |
| Logging.Logger.AddHandler | rotator.py:21 | the handlers become `Attach` of the old ones, the history records the change, and records are unchanged |
| Logging.Logger.RemoveHandler | rotator.py:29 | the handlers become `Detach` of the old ones, the history records the change, and records are unchanged |
| Logging.Logger.Debug | rotator.py:54 | one record with the message is added, sent to the handlers attached at that moment |
| Rotators.Rotator.constructor | rotator.py:12-22 | the rotator keeps its stream, handler and logger, and the handler is attached |
| Rotators.Rotator.Reopen | rotator.py:24-30 | the new handler becomes the rotator's, the logger's handlers are the old ones with the new one attached and the old one detached, and for a new handler no step leaves the logger without a handler |
| Rotators.Rotator.Lines | rotator.py:32-47 | in either mode the lines are the stream's results before end of input, stripped, and exactly those results and the end marker are consumed |
| Rotators.Rotator.IterateLines | rotator.py:36-40 | the buffered loop yields the results before end of input, stripped, and stops after the end marker |
| Rotators.Rotator.ReadLines | rotator.py:41-47 | the unbuffered loop yields the results before end of input, stripped, and stops after the end marker |
| Rotators.Rotator.Run | rotator.py:51-54 | the logger gains one record per line of input, in order, to the rotator's handlers, and its handlers are unchanged |
| Rotators.Rotator.LogLines | rotator.py:53-54 | logging the lines appends exactly their deliveries |
| Rotators.BufferedThousandHellos | test.py:56-63 | a watched rotator over 1000 "hello" lines yields them, in buffered mode |
| Rotators.NewWatched | rotator.py:57-61 | a fresh watched-file handler on the path and mode is attached, and the stream passed is read |
| Rotators.Signaled.constructor | rotator.py:69-70 | the signal number and the path are stored, with the rotator built on the handler |
| Rotators.Signaled.Handle | rotator.py:73-75 | a fresh plain handler on the same path, in append mode, replaces the old one, which is detached, and the logger is never without a handler |
| Rotators.Signaled.Run | rotator.py:77-80 | relays the input as `Rotator.run` does |
| Rotators.NewSignaled | rotator.py:64-71 | an unknown signal fails with that name and changes nothing; otherwise the signal, path and given stream are kept and a plain handler is attached |
| Rotators.NewSignaledAsWritten | rotator.py:64-71 | as written: an unknown signal fails with that name and changes nothing; otherwise the signal and path are kept, a fresh plain handler on the path and mode is attached and records are unchanged, but the rotator reads standard input, whatever stream was passed |
| Rotators.SignaledIgnoresFin | rotator.py:71 | built as written on a stream other than standard input, the rotator does not read that stream |
| Rotators.SizeText | rotator.py:86 | `str(size or 0)` never gives the empty string |
| Rotators.BackupCount | rotator.py:87 | `count or 5` never gives 0 |
| Rotators.RotatedLimits | rotator.py:85-89 | the size parser's error, which names the size text, or limits with a non-zero backup count |
| Rotators.RotatedDefaults | rotator.py:85-87 | falsy or missing size and count give size 0 and 5 backups |
| Rotators.RotatedIntSize | rotator.py:86 | an integer size is used as it is when non-negative, and rejected when negative |
| Rotators.RotatedTextSize | rotator.py:86 | a non-empty string size is accepted exactly when it is in the grammar, with the value the grammar gives it |
| Rotators.RotatedCount | rotator.py:87 | a non-zero count is used as it is |
| Rotators.NewRotated | rotator.py:83-89 | a rejected size fails before anything is attached; otherwise a rotating handler with the parsed limits is attached |

## Left out

- The retry on `IOError` while reading (rotator.py:48-49) is not modelled. It prints a warning and re-enters the read, so a persistent error loops forever. The model's stream never fails.
- Handler formatter and levels, and the logger level (rotator.py:16-17, 22), are not modelled. With everything at DEBUG every record is emitted, and that is what `Logging.Logger.Debug` models.
- `logging.getLogger('rotator')` is process-wide state. Here the logger is a parameter, and rotators built on one logger share it.
- The defaults `fin=sys.stdin` become explicit stream parameters.
- The handlers' file behaviour is not modelled: opening, writing, renaming, inode watching and rolling over belong to the `logging` library. A handler is modelled by its identity, kind, path and mode.
- Registering the signal handler in `Signaled.run` (rotator.py:79) is not modelled, and neither is asynchronous signal delivery. `Signaled.Handle` is the handler body, called between steps.
- The `signum` and `frame` arguments of `handle` are unused and not modelled.
- Generator laziness is not modelled. `Rotators.Rotator.Run` reads every line up to end of input and then logs them, so interleaving reads with logging is not captured. The records and their order are the same. An input with no end is not modelled.
- Python 2's distinction between `str` and `unicode` is not modelled; lines are Dafny strings.
- The signal table is fixed to the names and numbers of Python 2.7's `signal` module on Linux, including the handler constants `SIG_DFL` and `SIG_IGN`, which the source's attribute test also accepts.
- `size` and `count` values of other Python types are not modelled. `size` is `None`, an integer or a string; `count` is `None` or an integer. A negative count is passed through, as in the source.
- Rotators.Rotator.Reopen: with the handler already in use, the rotator ends with no handler attached and is no longer `Valid`, as in the source. Its "never without a handler" clauses are stated only for a different handler.
- Subclassing is modelled as composition: `Signaled` holds its `Rotator`, and `Watched` and `Rotated` are factory methods.
- The test harness (test.py beyond the cases cited above) and setup.py are not part of this model.

## Findings

| source | as written | input that shows it | evidently intended | confidence | as-written member | corrected member |
|---|---|---|---|---|---|---|
| rotator.py:71 | `Signaled.__init__` calls the base constructor without its `fin` argument, so the rotator always reads standard input | `Signaled(path, fin=pipe)` with `pipe` other than `sys.stdin`: `run` relays standard input and never reads `pipe` | pass `fin` on, as `Watched` and `Rotated` do (rotator.py:61, 89) | high (not executed) | Rotators.NewSignaledAsWritten | Rotators.NewSignaled |

`Rotators.SignaledIgnoresFin` exhibits the discrepancy for the default signal name.
The signal test (test.py:81-88) passes `fin` but never reads from it, so it does not exercise this path.
