# shock: a Dafny model of the task daemon's notice mailbox, task codec and scheduler

shock is a small Go daemon that works like a personal cron with a mailbox. It
runs shell commands ("tasks") on their own intervals. The first line of each
command's output becomes a notice, unless some notice already carries that
line. Remote clients can read, push, mark read and dump the notices. This
project models the sequential core of the daemon and proves properties of
that model:

- `Mailbox` (`mailbox.dfy`): the `Notice` record and its fixed-width
  rendering, and the `Notify` mailbox as a class over a `seq<Notice>` whose
  index 0 is the list's front. It covers `PushFront`, `Contains`, `Write`
  (the log sink), `Total`, `Last`, `Push`, `Notices`, `MarkRead` and `Dump`.
  Go's `Each` iteration is written out as the loop of each operation.
- `Shells` (`shell.dfy`): the `Shell` task as a class with the mutable
  `running` flag. `Run` takes the command's outcome as an input. The
  function `AfterRun` gives the mailbox a run leaves behind, and lemmas
  state the deduplication rule.
- `TaskConfig` (`taskconfig.dfy`): the configuration line codec.
  - `ScanLine` models `fmt.Sscanf` with `"%d %s %s %s %s\n"`.
  - `ToConfig` gives the task a scanned line builds.
  - `SaveLine`/`SaveFile` model what `SaveTasks` prints.
  - `LoadRecords` models the read loop.
  - Lemmas prove the round trip and the fail-fast behaviour.
- `Scheduler` (`taskserver.dfy`): the `TaskServer` as a class over a
  `seq<Shell>`. It covers the status listing, the `Pulse` launch rule,
  and `LoadTasks`/`SaveTasks` against the file's lines.
- `Fmt` (`fmt.dfy`): the pieces of Go's `fmt`, `strings` and `strconv` that
  the core relies on, written out character by character. These are
  `%-w.ws` padding, `strings.Replace`, `strings.Fields`, `strings.Split(...)[0]`,
  `%d`/`%03d` formatting and scanning, and int64 wrap-around and truncating division.

How the model reads the code where its behaviour is easy to misread:

- Dedup compares the new first line with the message of every notice in the
  queue, read or unread, whatever its label (`alerts.Contains`). It does not
  look only at the most recent notice.
- A `"nil"` argument token is not a sentinel. The check at shell.go:42
  inspects `cmd.Args[0]`, which is the command name. A config line whose
  arguments are `nil` therefore passes the argument `nil`, and the round trip
  keeps the token `nil`. A command named `nil` is the one that runs with no
  arguments, and `Run` reports an empty argument list for it.
- `Push` does not deduplicate.
- `Last` counts every unread notice, but reports a message only when the
  front notice is unread. It does not look further back for an unread one. With an empty queue and verbosity off, the
  code dereferences a nil front. The model returns `NilDereference` there.
- A blank line in the configuration file indexes `line[0]` and panics. The
  model stops the load with `BlankLine`.
- `Write` slices off the last byte, so an empty write panics. `Write`
  requires a non-empty input.
- `Interval * MINUTES` is computed in int64 and wraps (`Wrap64`).
  `Interval / MINUTES` truncates toward zero (`TruncDiv`).
- `%d` accepts an optional sign and at least one digit, and the value must
  fit in int64. The space after `%d` in the format must meet a space or the
  end of the line, so `30build make ...` does not scan. `%s` reads a maximal
  run of non-space characters. Text left after the fifth field is a scan
  error, because the newline that ends the format must meet the end of the
  line (see `TaskConfig.ScanLine` under "Left out").

## Model

| member | source | states |
|---|---|---|
| `Fmt.Wrap64` | shock.go:199 | the product is an int64 congruent to the exact value modulo 2^64, and equal to it when it fits |
| `Fmt.TruncDiv` | shock.go:230 | the remainder a - q*b is smaller than b in magnitude and has the sign of a, which is division truncating toward zero, for negative intervals too |
| `Fmt.PadTrunc` | shock.go:247 | `%-w.ws` yields exactly w characters: the string's first w, then spaces |
| `Fmt.Replace` | shock.go:201 | replacing a character keeps the length and changes exactly the matching positions |
| `Fmt.ReplaceUndone` | shock.go:230 | turning spaces back into commas undoes the load's commas-to-spaces when the token had no spaces |
| `Fmt.FirstLine` | shell.go:52 | the first element of splitting at newlines is a newline-free prefix that ends at the first newline or at the end |
| `Fmt.FieldsAreTokens` | shell.go:41 | `strings.Fields` yields no empty token and no token containing white space |
| `Fmt.FieldsEmpty` | shell.go:41 | the argument list is empty exactly when the argument string is all white space, the empty string included |
| `Fmt.FieldsOfJoined` | shell.go:41 | splitting tokens joined by single spaces gives the tokens back |
| `Fmt.ScanInt` | shock.go:195 | `%d` yields an int64 and consumes at least one character |
| `Fmt.ScanIntReads` | shock.go:195 | what `%d` read is, after leading spaces, a numeral (optional sign, then digits) whose value is the result, followed by the rest, which does not start with a digit |
| `Fmt.NumeralScans` | shock.go:195 | conversely, any int64 numeral followed by text that does not start with a digit scans to its value and leaves that text |
| `Fmt.ScanToken` | shock.go:195 | `%s` splits the input, after its leading spaces, into a non-empty space-free token and a rest that starts with a space or is empty, and fails exactly on all-space input |
| `Fmt.Decimal` | shock.go:305 | `%v` of the unread count is a minus sign exactly for a negative number, then the digits of its magnitude with no leading zero |
| `Fmt.ZeroPadded` | shock.go:230 | `%03d` prints a minus sign exactly for a negative number, then digits whose value is the number's magnitude, zero-padded to exactly three characters or as long as the unpadded number if that is longer |
| `Fmt.ScanIntOfZeroPadded` | shock.go:230 | every int64 printed with `%03d` is read back by `%d` |
| `Mailbox.NewNotice` | shock.go:242-244 | a new notice carries the label and message as given and starts unread |
| `Mailbox.Render` | shock.go:246-248 | a notice renders as 84 characters: the label and colon in 10 columns, a space, the message in 70, then "..." |
| `Mailbox.RenderShowsShort` | shock.go:246-248 | a label under 10 and a message up to 70 characters can be read back off their columns, and the read flag does not show |
| `Mailbox.GoSyntaxPrintable` | shock.go:349-356 | every Dump entry is one line of printable characters |
| `Mailbox.GoSyntaxShowsRead` | shock.go:352 | a Dump entry ends in `true}` exactly when the notice is read |
| `Mailbox.Unread` | shock.go:324-333 | the unread filter keeps exactly the unread notices and is no longer than the queue |
| `Mailbox.UnreadAppend` | shock.go:324-333 | the unread filter commutes with concatenation, so it keeps queue order |
| `Mailbox.AllRead` | shock.go:342-347 | marking read keeps every position and sets only the read flag |
| `Mailbox.MarkReadEffect` | shock.go:324-356 | after MarkRead nothing is unread, marking again changes nothing, and every notice keeps its label and message |
| `Mailbox.Notify.PushFront` | shock.go:280 | a notice goes in front of the unchanged old queue |
| `Mailbox.Notify.Contains` | shock.go:268-276 | true exactly when some notice in the whole history, read or not and whatever its label, has the message |
| `Mailbox.Notify.Write` | shock.go:278-282 | one unread "shock" notice with the input minus its last character goes in front; the old queue is unchanged; it returns 0 and no error |
| `Mailbox.Notify.Total` | shock.go:284-287 | the count of all notices, read ones included |
| `Mailbox.Notify.Last` | shock.go:290-312 | each case of the status line: empty and verbose gives the zero-messages line, empty and quiet dereferences nil, an unread front gives the prefix, unread count and front message, a read front gives the zero-messages line or the untouched reply |
| `Mailbox.Notify.Push` | shock.go:315-321 | one unread "client" notice with the message unchanged goes in front, with no dedup; the old queue is unchanged |
| `Mailbox.Notify.Notices` | shock.go:324-333 | the renderings of exactly the unread notices, front first |
| `Mailbox.Notify.MarkRead` | shock.go:342-347 | the new queue is the old one with every read flag set |
| `Mailbox.Notify.Dump` | shock.go:349-356 | one Go-syntax entry per notice, read or unread, in queue order |
| `Mailbox.MarkReadThenList` | shock.go:324-356 | after MarkRead, Notices lists nothing while Dump still shows every notice, in order, now read |
| `Shells.AfterRun` | shell.go:46-56 | a run loses no message, a successful run with output leaves its first line in the queue, and a queue without repeated messages keeps none |
| `Shells.RunAddsAtMostOne` | shell.go:46-56 | a run leaves the queue unchanged or adds one notice at the front, and it adds one exactly when the command succeeded with output whose first line no notice has |
| `Shells.RunTwiceSameLine` | shell.go:51-55 | two successful runs whose outputs start with the same line store it once, whatever the labels |
| `Shells.RunTwiceDistinctLines` | shell.go:51-55 | two successful runs with distinct new first lines store both, the later one in front |
| `Shells.Shell.constructor` | shell.go:22-32 | NewShell stores the tick as the interval and the other fields as given, not running |
| `Shells.Shell.Columns` | shell.go:60-62 | the 83-character status line is the label in 10 columns, a space, the command in 20, " in ", the directory in 20, " status ", and "true" or "false" padded to 20 |
| `Shells.Shell.StatusShowsRunning` | shell.go:60-66 | the status column starts with "true" exactly when IsRunning holds |
| `Shells.Shell.Run` | shell.go:38-58 | running is false on return; the arguments are the fields of Args, or none when the command is named "nil"; a failure returns its text plus the output and leaves the queue alone; a success leaves the queue as AfterRun says |
| `TaskConfig.ScanLine` | shock.go:195-198 | a scanned line gives an int64 minute count and four non-empty space-free fields |
| `TaskConfig.ScanTokens` | shock.go:195 | the four `%s` verbs and the final newline yield exactly n non-empty space-free tokens |
| `TaskConfig.ScanLineFields` | shock.go:195 | a line that scans has exactly five fields: a numeral of the minutes, then the label, command, arguments and path as scanned |
| `TaskConfig.FieldsScanLine` | shock.go:195 | conversely, a line of five fields whose first is an int64 numeral scans to that number and the other four fields |
| `TaskConfig.ToConfig` | shock.go:199-201 | the loaded interval is an int64 congruent to minutes times MINUTES modulo 2^64, and equal to it when that fits; each comma of the args becomes a space and every other character is kept; the other fields are unchanged |
| `TaskConfig.SaveLine` | shock.go:230 | a saved task line starts with a sign or a digit, never with the '#' of a comment |
| `TaskConfig.SaveFile` | shock.go:221-232 | the file is the three '#' header lines, then the line of each task in order |
| `TaskConfig.LoadRecords` | shock.go:185-211 | the read loop takes at most one record per read |
| `TaskConfig.LoadCompletes` | shock.go:185-211 | the load ends without an error exactly when every read passes: no read error, no blank line, and every non-comment line scans |
| `TaskConfig.LoadStopsAtFirstFailure` | shock.go:185-198 | the load stops at the first read error, blank line or unscannable line with that line's error, keeping the records of the earlier non-comment lines |
| `TaskConfig.LoadRecordsSkipping` | shock.go:193 | a line starting with '#' is skipped |
| `TaskConfig.LoadRecordsTaking` | shock.go:193-208 | any other line that scans contributes its record ahead of the rest of the file's |
| `TaskConfig.LineRoundTrip` | shock.go:195-231 | saving a loaded well-formed line and scanning it again gives the same minutes, label, command, argument token and path |
| `TaskConfig.SavedLineLoads` | shock.go:228-231 | the line saved for a task the format can carry scans back to a record that loads to that same task |
| `TaskConfig.SaveThenLoad` | shock.go:214-234 | loading a saved file skips the header and yields one record per task in save order, with no error, and those records load to the tasks again |
| `TaskConfig.BuildLineScans` | shock.go:193-198 | "030 build make clean,build /src" scans to 30, build, make, clean,build and /src |
| `TaskConfig.BuildLineTask` | shock.go:199-201 | that line loads to a 30-minute task running make with the arguments clean and build in /src |
| `Scheduler.TaskServer.Tasks` | shock.go:132-143 | the status line of each task, in collection order |
| `Scheduler.TaskServer.Pulse` | shock.go:157-176 | a task is launched exactly when its tick fired and it is not running, and launches follow collection order |
| `Scheduler.TaskServer.LoadLine` | shock.go:186-209 | one pass of the read loop halts with the line's error, skips a comment, or pushes a new idle task built from the line to the front |
| `Scheduler.TaskServer.LoadReads` | shock.go:185-211 | the read loop's error is the first failure's; the loaded tasks stand in reverse file order in front of the old ones, which are unchanged; every loaded task is a new, idle Shell |
| `Scheduler.TaskServer.LoadTasks` | shock.go:178-212 | a file that cannot be opened changes nothing and returns that error; otherwise as the read loop, with new, idle tasks in front |
| `Scheduler.TaskServer.SaveTasks` | shock.go:214-234 | the header, then one line per task, front to back; nothing is written if the file cannot be created |
| `Scheduler.SavedConfigsLoad` | shock.go:178-234 | loading what a save of carriable tasks wrote ends without an error and yields those tasks in reverse order |
| `Scheduler.Reload` | shock.go:178-212 | loading a file into a new server returns the read loop's error and holds the tasks of the loaded records, last line first |
| `Scheduler.SaveThenReload` | shock.go:178-234 | saving a server and loading the file into a new server succeeds, with no error, and gives the same tasks in reverse order |

## Left out

- Process glue (`main`, `server`, `client`, `recieve`, flag parsing, log-file creation, `io.MultiWriter`). Process and I/O plumbing. The log lines that reach the mailbox through `Write` only do so through `main`'s MultiWriter, so `Shell.Run`'s `log.Print` is not modelled as a push.
- The rpc, http and net listener and dialing code. The remote calls are plain methods here.
- File access (`os.Open`, `os.Create`, `bufio`). The configuration file is a sequence of reads: lines without their line end, or read errors. A failure to open or create the file is an input.
- `exec.Command` and `cmd.Output()`. The outcome of a run is an input: the error text, if any, and the captured output.
- `time.Tick` channels, goroutine launches, the forever loop of `TaskServer.Run` and `Notify.StopServer`'s send on the stop channel. These exist for concurrency and timing. `Pulse` takes a "fired" flag per task and returns the indices it would launch a goroutine for.
- The background run that `LoadTasks` starts for every loaded task. It is a goroutine, and its effect is that of `Shell.Run`.
- `Notify.Tasks`. It only forwards to the global scheduler's `TaskServer.Tasks`, which is modelled.
- The `%T is unknown` branches of `Each`, `Tasks` and `Pulse`. A typed Dafny sequence holds no element of another type.
- `log.Prefix()` in `Last`. It is a parameter.
- Rune versus byte widths in `fmt`. Padding and truncation count characters.
- Mailbox.GoSyntax: quotes strings by escaping only the quote, the backslash and the C0, DEL and C1 control characters. `strconv.Quote` also escapes every other character Go does not count as printable, such as U+00A0 (no-break space) and U+00AD (soft hyphen), which it writes as `\u00a0` and `\u00ad`; the model prints those characters as they are. It also escapes invalid UTF-8, which a `seq<char>` does not represent.
- Shells.Shell.Run: states that `running` is false when `Run` returns. It does not state that the flag is true while the call is in progress, because that is only observable by a concurrent reader.
- TaskConfig.ScanLine: follows the rules of the Go 1 `fmt` scanner. Spaces in the format match runs of spaces, and a newline in the format must meet a newline or the end of the input, so trailing text is an error. The pre-Go-1 `fmt` this program was written against may have treated the newline as ordinary space and accepted trailing text; the model does not follow that scanner.
- TaskConfig.SaveThenLoad: each saved line comes back as one read. `bufio.Reader.ReadLine` returns a line longer than its 4096-byte buffer in pieces, and shock.go:186 ignores the `isPrefix` flag. In the program, a task whose saved line exceeds 4096 bytes is therefore reloaded as several lines and the round trip fails.
- Scheduler.SaveThenReload: rests on the same one-read-per-line assumption as `TaskConfig.SaveThenLoad`, so it does not cover saved lines over 4096 bytes.
- Scheduler.SavedConfigsLoad: rests on the same one-read-per-line assumption, so it does not cover saved lines over 4096 bytes.
- Scheduler.Reload: reads each line of the file as one read (`AsReads`), so a line over 4096 bytes, which `ReadLine` returns in pieces, is not modelled.
- The unsynchronised concurrent access to the mailbox from goroutines and rpc handlers. The model is sequential.
