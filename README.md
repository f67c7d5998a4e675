# FalconBMSToSerial, modelled in Dafny

FalconBMSToSerial reads Falcon BMS telemetry and broadcasts one packet per tick
to a set of serial ports. It keeps retrying ports that are missing, and it
drops ports whose write fails. A small Qt window starts and stops the
broadcaster, sets its frequency and port list, and mirrors standard output
into a log tab.

This project models the logic of that program in Dafny and proves properties
of the model. It covers four files:

- **`serialsender.py`**: the asyncio sender that the window uses.
  - `init_ports` (the sweep that opens ports);
  - one pass of `send`: write, prune, then the carry-over counter;
  - `start` and `stop`.
- **`bms_serial.py`**: the thread-based sender.
  - `init_ports`, one pass of `_run_loop` (write, close and prune, reset counter);
  - `start`, `stop`;
  - `detect_serial_ports`.
- **`logger.py`**: the queued in-app log.
  - `log_*` and `clear_log`;
  - `process_log_queue`, where a STATUS line stays pinned at the bottom.
- **`main.py`**: the window.
  - `TeeStream`;
  - the carriage-return bridge `QTextEditLogger`;
  - the slider snapping;
  - the port-list parse and its storage;
  - the start/stop toggle;
  - the elapsed-time label;
  - the log tab, and the main window's start-up and final stop.

The modules are:

- `Wrappers`: `Option`.
- `Text`: Python's `strip`, `split("\n")`, `"\n".join`, `in` on strings, `replace(c, "")` and integer formatting, on `seq<char>`.
- `Lists`: list comprehensions that filter by membership, and `list.remove`.
- `Pyserial`: the serial port object, the open outcome, port records, and how a failed open is classified.
- `Sweep`: what a sweep attempts and what it adds.
- `TextDocument`: a `QTextEdit` as a sequence of lines, with the two cursor edits the program makes at the end.
- `Logger`: `logger.py`.
- `BmsSerial`: `bms_serial.py`.
- `SerialSender`: `serialsender.py`, plus standard output as a list of writes.
- `Gui`: `main.py`.

How the model stands in for the outside world:

- **The serial device.** Its behaviour is a parameter of every operation:
  - an open is given its outcome as a function from the attempt's index to `Opened` or `Failed(str(e))`;
  - a write pass is given the map from each failing port to its error text;
  - a close is given the set of ports whose `close` raises.
- **The telemetry packet.** It is an opaque byte sequence passed in.
- **The clock.** `datetime.now()` becomes an integer number of microseconds passed in.
- **One loop pass.** One pass of each sender's background loop is one method call. The loop is the repeated call, and the loop's local counter is a field.

## Model

| member | source | states |
|---|---|---|
| Pyserial.ClassifyByText | bms_serial.py:28-33 | A failed open is "device not found" exactly when "FileNotFoundError" occurs in the message. Otherwise it is "permission denied" exactly when "PermissionError" occurs. Everything else is another failure. |
| Pyserial.SerialPort.constructor | bms_serial.py:23 | A successful `serial.Serial(name, 115200)` is an open port with that name and baud rate, and nothing delivered yet. |
| Pyserial.SerialPort.Write | bms_serial.py:51-55 | A write succeeds exactly when it does not raise. The packet is delivered exactly when it succeeds. A write never changes whether the port is open. |
| Pyserial.SerialPort.Close | bms_serial.py:58-61 | After `close` the port is closed unless the close raised. Nothing is delivered. |
| Lists.Without | bms_serial.py:19 | The comprehension `[p for p in s if p not in xs]` is never longer than its input. Which elements it keeps, and that it keeps their order, is stated by `Lists.WithoutMember` and `Lists.WithoutConcat`. |
| Lists.WithoutMember | bms_serial.py:19 | An element is kept exactly when it is in the list and not in the excluded set. |
| Lists.Within | bms_serial.py:50-55 | Collecting the elements of the list that are in the set gives no more elements than the list has. Which ones, and in list order, is stated by `Lists.WithinMember` and `Lists.WithinConcat`. |
| Lists.WithinMember | bms_serial.py:55 | An element is collected exactly when it is in the list and in the set. |
| Lists.WithoutConcat | bms_serial.py:19 | Filtering distributes over concatenation. |
| Lists.WithinConcat | bms_serial.py:55 | Collecting distributes over concatenation. |
| Lists.WithoutNoDup | bms_serial.py:19 | Filtering a list without duplicates gives a list without duplicates. |
| Lists.WithinNoDup | bms_serial.py:55 | Collecting from a list without duplicates gives a list without duplicates. |
| Lists.WithoutNone | bms_serial.py:19 | Filtering by elements that are not in the list changes nothing. |
| Lists.WithoutWithout | bms_serial.py:57-62 | Removing one set and then another is removing their union. |
| Lists.RemoveFirst | bms_serial.py:62 | `list.remove(x)` of a present element shortens the list by one. |
| Lists.RemoveFirstNoDup | bms_serial.py:62 | In a list without duplicates, `remove(x)` removes exactly `x` and keeps the order of the others. |
| Lists.RemoveFirstStep | bms_serial.py:57-62 | One more `remove` in the prune loop removes one more element from the filtered list. |
| Lists.Elems | bms_serial.py:57 | The set of a list's elements holds exactly the listed elements. |
| Lists.WithoutAgree | bms_serial.py:57-62 | Filtering depends only on which of the list's own elements are excluded. |
| Lists.WithoutWithin | serialsender.py:63-71 | Removing the collected failing ports is removing the failing ports. |
| Sweep.PortNames | bms_serial.py:18 | `[port.port for port in ports]` has one name per port. |
| Sweep.PortNamesConcat | bms_serial.py:18 | The names of a concatenation are the concatenation of the names. |
| Sweep.PortNamesAppend | bms_serial.py:24 | Appending a port appends its name. |
| Sweep.PortNamesAt | bms_serial.py:18 | The i-th name is the name of the i-th port. |
| Sweep.PendingMember | bms_serial.py:19 | A name is attempted exactly when it is configured and no open port has it. |
| Sweep.Succeeded | bms_serial.py:21-24 | No more names open than were attempted. Which ones, and in attempt order, is stated by `Sweep.SucceededSplit` and `Sweep.SucceededMember`. |
| Sweep.SucceededAllOpen | bms_serial.py:21-24 | When every attempt opens, every attempted name is added, in order. |
| Sweep.SucceededAllFail | bms_serial.py:26-33 | When every attempt fails, nothing is added, and the remaining names are still attempted. |
| Sweep.SucceededSplit | bms_serial.py:21-24 | One more attempt appends its name exactly when it opened, and keeps what came before. |
| Sweep.SucceededMember | bms_serial.py:21-24 | Only attempted names are added. |
| Sweep.SucceededNoDup | bms_serial.py:21-24 | Attempts without duplicates add names without duplicates. |
| Sweep.DeliverTo | bms_serial.py:51-52 | `port.write(data)` on the next port: it succeeds exactly when the port is not failing. Only that port changes, every port stays open, and the pass has reached one port further. |
| Sweep.CloseIn | bms_serial.py:58-61 | Closing the next collected port: it stays open only if its close raised, and no other port changes. |
| Sweep.OpenAfterPruneKept | bms_serial.py:57-62 | After the prune, every port left in the list is open. |
| Sweep.OpenAfterPruneWithin | bms_serial.py:48-62 | Removing the collected ports is removing the failing ones, so a port is closed exactly when its write failed and its close did not raise. |
| Sweep.OnePortPerName | bms_serial.py:18-24 | Suppose the configured names and the open ports' names each have no duplicates. Then after a sweep there is at most one open port per name, and every added name is configured and was not open before. |
| BmsSerial.ConnectMessage | bms_serial.py:25-33 | A connect attempt logs INFO exactly when the open succeeded, and never logs a STATUS entry. |
| BmsSerial.ConnectMessageKind | bms_serial.py:28-33 | A failed open logs a WARNING exactly when the error is "device not found" or "permission denied". It logs an ERROR exactly otherwise. |
| BmsSerial.SweepLog | bms_serial.py:21-33 | A sweep logs one entry per attempt. |
| BmsSerial.SweepLogAt | bms_serial.py:21-33 | The i-th entry is the message for the i-th attempt and its outcome. |
| BmsSerial.SweepLogStep | bms_serial.py:21-33 | One more attempt appends its own message. |
| BmsSerial.WriteLog | bms_serial.py:50-55 | A write pass logs one entry per failing port. |
| BmsSerial.WriteLogErrors | bms_serial.py:54 | Every entry a write pass logs is an ERROR. |
| BmsSerial.ResetStepBounds | bms_serial.py:64-68 | With `frequency > 0`, one counter step keeps `0 <= time_passed < 5000 + frequency`. |
| BmsSerial.ResetIterBounds | bms_serial.py:64-68 | From the initial 0, the counter stays within `0 .. 5000 + frequency` after any number of passes. |
| BmsSerial.StepsToSweep | bms_serial.py:64-68 | The number of `+frequency` steps needed to reach 5000 is the least `r >= 1` with `r * frequency >= 5000`. |
| BmsSerial.BelowSweep | bms_serial.py:64 | Fewer steps than that stay below 5000. |
| BmsSerial.ResetIterAdd | bms_serial.py:64-68 | Running `a + b` passes is running `a` passes, then `b`. |
| BmsSerial.ResetIterRamp | bms_serial.py:68 | Until the first sweep, the counter after `k` passes is `k * frequency`. |
| BmsSerial.ResetIterCycle | bms_serial.py:64-66 | The counter is back at 0 after the steps to the sweep plus one. |
| BmsSerial.ResetIterCycles | bms_serial.py:64-68 | The counter is periodic with that period. |
| BmsSerial.ResetIterClosedForm | bms_serial.py:64-68 | After `j` passes the counter is `(j mod period) * frequency`, the period being `StepsToSweep(frequency) + 1`. |
| BmsSerial.SweepAt | bms_serial.py:64-68 | Pass `j` sweeps exactly when `j mod period` is `StepsToSweep(frequency)`. So the first sweep comes after `StepsToSweep(frequency)` passes, and each later one exactly one period after the one before. |
| BmsSerial.DetectSerialPorts | bms_serial.py:84-91 | Every enumerated port with `pid` and `vid` both set is reported, and no more names than there are ports. |
| BmsSerial.DetectedAreValid | bms_serial.py:85-89 | Every reported name is the device of a port with `pid` and `vid` both set. |
| BmsSerial.DetectConcat | bms_serial.py:89 | Detection keeps enumeration order: it distributes over concatenation. |
| BmsSerial.DetectSingle | bms_serial.py:85-89 | A single port is reported exactly when it is valid. |
| BmsSerial.SerialSender.constructor | bms_serial.py:10-15 | A new sender has the given names, no ports, is not running, and has frequency 250. |
| BmsSerial.SerialSender.InitPorts | bms_serial.py:17-33 | These hold after a sweep: (1) the open ports are kept as a prefix, in order; (2) the names of the ports added are exactly the pending names whose open succeeded, in order; (3) one log entry per attempt is queued and recorded; (4) no port twice, and all open. |
| BmsSerial.SerialSender.SweepStep | bms_serial.py:21-33 | One pass of the sweep loop extends the sweep's invariant by one attempt. |
| BmsSerial.SerialSender.TryOpen | bms_serial.py:22-33 | A failed open leaves the ports unchanged. A successful one appends a fresh open port with that name. Either way exactly its message is logged. |
| BmsSerial.SerialSender.Start | bms_serial.py:35-40 | `start` records the frequency and sets `running`. It logs "Starting serial communication". |
| BmsSerial.SerialSender.BeginRunLoop | bms_serial.py:42-44 | The loop starts with the counter at 0 and one sweep, as InitPorts states it. The sweep's entries go to the log queue and to the records alike. |
| BmsSerial.SerialSender.WritePass | bms_serial.py:50-55 | The ports to remove are exactly the failing ports, in list order. Every other port received `data`; a failing port received nothing. One ERROR is logged per failure. |
| BmsSerial.WriteLogPrefix | bms_serial.py:50-55 | Extending a write pass by one port adds that port's error entry when it fails, and adds it to the ports to remove. |
| BmsSerial.LogWriteFailure | bms_serial.py:54 | A failed write appends one ERROR entry "Error writing to NAME: e" to both the queue and the `logging` record. |
| BmsSerial.SerialSender.WriteStep | bms_serial.py:50-55 | One pass of the write loop extends the write pass's invariant by one port. |
| BmsSerial.SerialSender.PrunePass | bms_serial.py:57-62 | The list becomes the old list without the removed ports, order kept. Each removed port was closed, and stays open only if its close raised. |
| BmsSerial.SerialSender.PruneStep | bms_serial.py:58-62 | One pass of the prune loop removes one more port. |
| BmsSerial.SerialSender.WriteAndPrune | bms_serial.py:47-62 | After the writes and the prune, the ports are the old list minus exactly the failing ones, order kept. Survivors received the same `data` and failing ports nothing. A port is still open exactly when its write succeeded or its close raised. Errors are logged per failure. |
| BmsSerial.SerialSender.CounterStep | bms_serial.py:64-68 | The counter makes one reset step. A sweep runs exactly when it had reached 5000, the open ports stay a prefix, and no existing port is touched. The sweep's entries go to the queue and the records; without a sweep both are unchanged. |
| BmsSerial.SerialSender.RunLoopIteration | bms_serial.py:46-68 | When running, one pass: (1) writes the same packet to every open port; (2) drops exactly the failing ones; (3) steps the counter, sweeping when due. The write errors and then the sweep's entries go to the log queue and to the records alike. When not running, nothing changes: not the sender, not the log's queue or records, not any port. |
| BmsSerial.SerialSender.Stop | bms_serial.py:72-82 | `stop` clears `running`, tries to close every port, and empties the list whatever the closes do. It logs "Stopping serial communication". Of each port only the open flag can change; nothing is delivered. |
| SerialSender.Stdout.constructor | main.py:162-163 | Standard output starts with no writes. |
| SerialSender.Stdout.Write | main.py:162 | `sys.stdout.write(s)` appends `s` to what was written. |
| SerialSender.Stdout.Print | serialsender.py:22 | `print(s)` writes `s` and then a newline. |
| SerialSender.ConnectLineReports | serialsender.py:18-26 | A failed open prints a line beginning "Error connecting to NAME: ". A successful one prints exactly "Connected to NAME". |
| SerialSender.Printed | serialsender.py:22-26 | `print(line)` for each line writes two items per line. |
| SerialSender.PrintedAt | serialsender.py:22-26 | The writes alternate: each line, then its line end. |
| SerialSender.PrintedAppend | serialsender.py:22-26 | Printing one more line appends that line and a line end. |
| SerialSender.ConnectLines | serialsender.py:18-26 | A sweep has one message per attempt. |
| SerialSender.SweepOutput | serialsender.py:18-26 | A sweep prints one line per attempt. |
| SerialSender.SweepOutputAt | serialsender.py:18-26 | The i-th printed line is the i-th attempt's message. |
| SerialSender.SweepOutputStep | serialsender.py:18-26 | One more attempt prints its own line. |
| SerialSender.WriteOutput | serialsender.py:64-69 | A write pass prints one line per failing port. |
| SerialSender.WriteOutputAt | serialsender.py:68 | The i-th printed line names the i-th failing port and its error. |
| SerialSender.CarrySweeps | serialsender.py:75-78 | The number of sweeps in `k` passes is at most `k`. |
| SerialSender.CarryStepBounds | serialsender.py:75-78 | With `frequency > 0`, one carry-over step keeps `0 <= time_passed < 5000 + frequency`. |
| SerialSender.CarryIterBounds | serialsender.py:75-78 | From 0 the counter stays within those bounds after any number of passes. |
| SerialSender.CarryConserves | serialsender.py:75-78 | Counter plus 5000 per sweep equals the start value plus `frequency` per pass without a sweep. The remainder is never lost. |
| SerialSender.SweepRate | serialsender.py:75-78 | Over `k` passes there are at most `frequency * k / (5000 + frequency)` sweeps. |
| SerialSender.SerialSender.constructor | serialsender.py:10-12 | A new sender has the given names and no ports, and is neither started nor sending. |
| SerialSender.SerialSender.InitPorts | serialsender.py:14-26 | Open ports are kept as a prefix. The added names are exactly the pending names that opened, in order. One printed line per attempt. |
| SerialSender.SerialSender.SweepStep | serialsender.py:18-26 | One pass of the sweep loop extends the sweep's invariant by one attempt. |
| SerialSender.SerialSender.TryOpen | serialsender.py:19-26 | A failed open leaves the ports unchanged. A successful one appends a fresh open port. Either way its line is printed. |
| SerialSender.SerialSender.Start | serialsender.py:29-38 | `start` prints "STARTING SERIAL COMMUNICATION" and records the frequency. |
| SerialSender.SerialSender.BeginSend | serialsender.py:56-59 | `send` begins with one sweep before any write, and the counter at 0. |
| SerialSender.SerialSender.WritePass | serialsender.py:63-69 | The ports to remove are exactly the failing ports, in order. Every other port received `data`; a failing port received nothing. One error line is printed per failure. |
| SerialSender.WriteOutputPrefix | serialsender.py:64-69 | Extending a write pass by one port adds that port's error line when it fails, and adds it to the ports to remove. |
| SerialSender.SerialSender.WriteStep | serialsender.py:64-69 | One pass of the write loop extends the write pass's invariant by one port. |
| SerialSender.SerialSender.PrunePass | serialsender.py:71 | The list becomes the old list without the removed ports, order kept. Removed ports are not closed. |
| SerialSender.SerialSender.WriteAndPrune | serialsender.py:62-71 | The ports are the old list minus exactly the failing ones, order kept. Survivors received `data`, and no port is closed. |
| SerialSender.SerialSender.CounterStep | serialsender.py:75-78 | The counter makes one carry-over step. A sweep runs exactly when it had reached 5000, and no existing port is touched. |
| SerialSender.SerialSender.SendIteration | serialsender.py:61-78 | One pass writes one packet to every open port, drops exactly the failing ones, then steps the counter with carry-over, sweeping when due. |
| SerialSender.SerialSender.Stop | serialsender.py:40-50 | `stop` prints "STOPPING SERIAL COMMUNICATION", ends the sending loop and closes the ports in order. The list is emptied exactly when no close raises. If one raises, the ports before it are closed, it and the later ones keep their state, and the list is kept. Ports left closed in the list by an earlier stop are accepted. Of each port only the open flag can change; nothing is delivered. |
| SerialSender.FirstInSpec | serialsender.py:48-49 | The first port whose close raises is the first in list order that is in the failing set. |
| Text.TrimStart | main.py:152 | Removing leading whitespace never makes a string longer. |
| Text.TrimStartSlice | main.py:152 | Removing the leading whitespace keeps a suffix of the string. Everything cut off is whitespace, and the rest does not start with whitespace. |
| Text.TrimEnd | main.py:152 | Removing trailing whitespace never makes a string longer. |
| Text.TrimEndSlice | main.py:152 | Removing the trailing whitespace keeps a prefix of the string. Everything cut off is whitespace, and the rest does not end with whitespace. |
| Text.Strip | main.py:152 | `strip()` never makes a string longer. |
| Text.StripEnds | main.py:152 | A non-empty `strip()` neither starts nor ends with whitespace. |
| Text.StripSlice | main.py:152 | `strip()` is a contiguous part of the input with only whitespace on either side of it. |
| Text.StripEmpty | main.py:152 | `strip()` is empty exactly when the line is all whitespace. |
| Text.StripTrimmed | main.py:152 | A line with no whitespace at either end is its own `strip()`. |
| Text.SplitNewline | main.py:152 | `split("\n")` gives at least one piece, and no piece holds a newline. |
| Text.SplitNewlineCount | main.py:152 | It gives one piece more than there are newlines. |
| Text.JoinSplit | main.py:152-153 | Joining the pieces with newlines gives the text back. |
| Text.SplitNoNewline | main.py:195 | A text without a newline splits into itself, so `"".split("\n")` is `[""]`. |
| Text.SplitAfterLine | main.py:187 | A line, a newline, then more text splits into that line followed by the pieces of the rest. |
| Text.SplitJoin | main.py:153 | Splitting names joined by newlines gives the names back, when no name holds a newline. |
| Text.ContainsIff | bms_serial.py:28-30 | `t in s` holds exactly when `t` occurs at some index of `s`. |
| Text.RemoveChar | main.py:34 | `replace('\r', '')` leaves no `'\r'`. |
| Text.RemoveCharCounts | main.py:34 | Every other character keeps its number of occurrences. |
| Text.RemoveCharConcat | main.py:34 | Removing a character distributes over concatenation. |
| Text.RemoveCharAbsent | main.py:34 | A text without the character is unchanged. |
| Text.Digits | main.py:160 | The decimal digits are non-empty and all digits. They have a leading zero exactly for 0. |
| Text.DigitsRoundTrip | main.py:160 | Reading the digits back gives the number. |
| Text.ZeroPad | main.py:160 | Zero padding yields the larger of the width and the digit count in length, keeps the digits at the end and only adds zeros. |
| Text.LeadingZerosValue | main.py:160 | Any number of leading zeros keeps a digit string digits and does not change the number it denotes. |
| Text.ZeroPadValue | main.py:160 | Zero padding does not change the number denoted. |
| Text.FormatInt | main.py:160 | `f"{x}"` begins with '-' exactly for a negative number. |
| Text.Format02 | main.py:160 | `f"{n:02d}"` is digits, and exactly two of them below 100. |
| Text.Format02IsZeroPad | main.py:160 | `f"{n:02d}"` is the decimal digits zero-padded to width 2. |
| Text.Format02Value | main.py:160 | The two-digit form denotes the number. |
| TextDocument.Insert | main.py:55 | Inserting at the end keeps the document well-formed. |
| TextDocument.InsertLength | main.py:55 | Every newline inserted adds one line. |
| TextDocument.InsertAppendsText | main.py:55 | Inserting at the end appends the text to the plain text. |
| TextDocument.InsertLine | logger.py:97 | Inserting "\n" plus a single line adds that line as the new last line. |
| TextDocument.ReplaceLast | main.py:50-55 | Replacing the line under the cursor keeps the document well-formed. |
| TextDocument.ReplaceLastIsInsert | main.py:50-55 | Selecting the last line and removing it, then inserting, is replacing the last line. |
| TextDocument.ReplaceLastText | main.py:50-55 | The plain text becomes the text up to the last line's start, followed by the inserted text. |
| TextDocument.ReplaceLine | logger.py:72-76 | Replacing the last line by a single line keeps the number of lines. |
| TextDocument.TextEdit.constructor | main.py:93 | A new `QTextEdit` has one empty line. |
| TextDocument.TextEdit.SetText | main.py:94 | After `setText(t)` the plain text is `t`, one line per `split("\n")` piece. |
| TextDocument.TextEdit.LastBlock | logger.py:72-73 | Selecting the line under the final cursor gives the last line. |
| TextDocument.TextEdit.InsertText | main.py:55 | `insertText(t)` at the end appends `t` to the plain text. |
| TextDocument.TextEdit.RemoveLastLine | main.py:51-52 | Removing the selected last line leaves it empty and keeps every earlier line. |
| TextDocument.TextEdit.ReplaceLastLine | logger.py:80-86 | The last line is replaced as ReplaceLast states. |
| Logger.LogType.Name | logger.py:14-18 | Each enum member's name is a non-empty single line. |
| Logger.Line | logger.py:76 | `f"{type.name}: {msg}"` is longer than the message, and a single line when the message is. |
| Logger.Render | logger.py:59-100 | After an entry, the last type is STATUS exactly when the entry was STATUS, or when a status line was pinned and the entry puts it back. Otherwise it is the entry's own type. |
| Logger.RenderAll | logger.py:58-100 | Draining keeps the document well-formed, an empty queue changes nothing, and a non-empty one sets the last type. |
| Logger.RenderAllConcat | logger.py:58-59 | Draining two batches in turn is draining their concatenation, so the order is FIFO. |
| Logger.FirstMessage | logger.py:69-78 | On a cleared log the first entry's line becomes the whole text. |
| Logger.Appended | logger.py:94-99 | An appended entry adds a newline and its line to the text, or, for a single line, one more line. |
| Logger.StatusReplacedInPlace | logger.py:79-86 | A STATUS entry under a status line replaces it in place. The line count and the STATUS type are kept. |
| Logger.StatusRepinned | logger.py:79-90 | A repinning entry takes the status line's place, and the status line is back below it. |
| Logger.StoppingSingleLine | logger.py:87 | The stopping message's line is a single line. |
| Logger.StoppingUnpins | logger.py:79-87 | "Stopping serial communication" under a status line replaces it, and the status line is gone. |
| Logger.Lines | logger.py:76 | One line per entry, the i-th being the i-th entry's line. |
| Logger.PinnedStep | logger.py:79-90 | A repinning entry keeps the same status line pinned last and adds its own line above it. |
| Logger.StatusStaysPinned | logger.py:79-90 | Under a sequence of repinning entries, the status line stays last. Their lines are added above it in order. |
| Logger.Log.constructor | logger.py:11-12 | The queue starts empty, with no last type. |
| Logger.Log.LogInfo | logger.py:35-37 | `log_info` queues one INFO entry and records it with `logging`. |
| Logger.Log.LogStatus | logger.py:39-40 | `log_status` queues one STATUS entry and records nothing. |
| Logger.Log.LogWarning | logger.py:42-44 | `log_warning` queues one WARNING entry and records it. |
| Logger.Log.LogError | logger.py:46-48 | `log_error` queues one ERROR entry and records it. |
| Logger.Log.ClearLog | logger.py:50-54 | `clear_log` forgets the last type, empties the text, and queues exactly one INFO "Logs cleared". |
| Logger.Log.ProcessLogQueue | logger.py:56-100 | The queue is drained completely. The document and last type are what rendering the old queue in FIFO order gives. |
| Logger.Log.DisplayNext | logger.py:58-59 | One pass takes the front entry, and the rest of the drain is still what remains to render. |
| Logger.Log.DisplayEntry | logger.py:61-100 | One entry is rendered as Render states. |
| Gui.CallTrace.Record | main.py:14 | A call on a stream is recorded after earlier ones. |
| Gui.WriteCalls | main.py:13-14 | One write call per stream. |
| Gui.FlushCalls | main.py:15-16 | One flush call per stream. |
| Gui.WriteCallsAt | main.py:13-14 | The i-th write goes to the i-th stream with the same message. |
| Gui.FlushCallsAt | main.py:15-16 | The i-th flush goes to the i-th stream. |
| Gui.TeeWriteFanOut | main.py:12-16 | `write(msg)` makes twice as many calls as there are streams. The first half writes `msg` to each stream in order, and the second half flushes each stream in order. |
| Gui.TeeStream.Write | main.py:12-16 | `write(msg)` writes `msg` to every stream in order, then flushes every stream in order. |
| Gui.TeeStream.Flush | main.py:18-20 | `flush()` flushes every stream in order. |
| Gui.FilterCarriageReturn | main.py:33-36 | A message with '\r' has all '\r' removed, and both flags are set. |
| Gui.NewlineOnceAfterOverwrite | main.py:33-41 | After a message with '\r', the next message without '\r' gets exactly one '\n' in front and clears both flags. The one after it passes unchanged. |
| Gui.FilterReachable | main.py:29-41 | `write` keeps the invariant of the two flags: an armed overwrite always comes with a pending newline. |
| Gui.AppendEffect | main.py:46-55 | Appending keeps the document well-formed. |
| Gui.DirectWrite | main.py:32-55 | A write delivered at once keeps the document well-formed. |
| Gui.StatusOverwrites | main.py:33-55 | A single-line message with '\r' replaces the last line by the message without '\r'. It keeps the line count and leaves a newline pending. |
| Gui.LineAfterStatus | main.py:37-55 | The next single-line message after it goes on a new line of its own. |
| Gui.PlainAppends | main.py:41-55 | With no flag set, a message without '\r' is appended to the text unchanged. |
| Gui.QTextEditLogger.constructor | main.py:25-30 | Both flags start clear. |
| Gui.QTextEditLogger.Write | main.py:32-41 | `write` emits what the filter gives, and leaves its flags. |
| Gui.QTextEditLogger.AppendText | main.py:46-57 | `_append_text` replaces the last line when the overwrite flag is set and appends otherwise. It clears the flag. |
| Gui.QTextEditLogger.WriteDirect | main.py:32-57 | Filter and append together change the state as DirectWrite states. |
| Gui.SnapCases | main.py:115 | `round(value / tick)` is the floor quotient, or one more, as Python's ties-to-even rounding decides. |
| Gui.SnapError | main.py:114-115 | The snapped value is a multiple of the tick, at most half a tick away. |
| Gui.SnapNearest | main.py:114-115 | No multiple of the tick is nearer to the value than the snapped one. |
| Gui.SnapTieEven | main.py:115 | Half-way, the even quotient wins. |
| Gui.SnapFixed | main.py:114-117 | A value already on a multiple of the tick snaps to itself. |
| Gui.SnapInRange | main.py:113-121 | Snapping a slider value in 100..1000 by 50 stays in 100..1000. |
| Gui.CleanPortNames | main.py:152 | No more names than lines. |
| Gui.StripNoNewline | main.py:152 | A stripped line holds no newline. |
| Gui.CleanNamesAreClean | main.py:152 | Every parsed name is non-empty and stripped. |
| Gui.Stripped | main.py:152 | One stripped line per line. |
| Gui.StrippedAppend | main.py:152 | Stripping one more line appends that line's strip. |
| Gui.CleanPortNamesMember | main.py:152 | A name is in the parse exactly when it is non-empty and the strip of some line. |
| Gui.CleanPortNamesConcat | main.py:152 | The parse distributes over the lines, so the order is kept. |
| Gui.CleanPortNamesFixed | main.py:152 | Clean names parse to themselves. |
| Gui.PortListRoundTrip | main.py:152-153 | Clean names stored with `"\n".join` parse back to the same names. |
| Gui.PortListIdempotent | main.py:152-153 | Parsing the stored text of a parse gives the same names. |
| Gui.InitialPortNamesEmptyName | main.py:195 | As written, an emptied port list is stored as "" and comes back as `[""]`. |
| Gui.InitialPortNamesRestore | main.py:195 | With the corrected loading, any stored list of clean names comes back exactly, with no empty name. |
| Gui.SettingsSurviveRestart | main.py:193-195 | What one session stores, the next starts with: the snapped frequency and, with the corrected loading, the same port names. A first start has frequency 250 and no names. |
| Gui.FirstStartAsWritten | main.py:195 | As written, a first start with nothing stored gives one empty name. |
| Gui.TimedeltaSeconds | main.py:157-158 | `timedelta.seconds` is below one day. |
| Gui.SplitSecondsSpec | main.py:158-159 | The two `divmod`s rebuild the seconds as `h*3600 + m*60 + s`, with `m` and `s` below 60. |
| Gui.SplitSecondsUnique | main.py:158-159 | It is the only such split. |
| Gui.ElapsedAsWrittenDropsDays | main.py:157-158 | As written, 86405 s of activity shows 0:00:05. |
| Gui.ElapsedSpec | main.py:157-159 | The corrected split rebuilds the whole elapsed seconds, days included. |
| Gui.ShowsElapsedUnique | main.py:157-159 | A time splits `elapsed.seconds` into hours, minutes below 60 and seconds below 60 exactly when it is the as-written split. |
| Gui.ElapsedTime | main.py:157-159 | The two `divmod`s give hours, minutes and seconds with `h * 3600 + m * 60 + s == elapsed.seconds`, minutes and seconds below 60 and hours below 24. |
| Gui.ElapsedAgreesFirstDay | main.py:157-159 | Within the first day the written and the corrected split agree. |
| Gui.TimerStringParts | main.py:160 | The timer text is the hours, ':', two minute digits, ':', two second digits. The fields can be read back at fixed places from the end. |
| Gui.SendingLine | main.py:162 | The status line starts with '\r'. |
| Gui.TimerOnOneLine | main.py:160 | The timer text holds no line break. |
| Gui.TickReplacesLastLine | main.py:155-163 | Each tick's status line written to the log tab replaces its last line by "Sending data (timer)". The line count is kept and a newline is left pending. |
| Gui.QTMainTab.constructor | main.py:60-111 | The tab starts inactive with a new sender over the initial names that is not started. The slider is at the clamped initial frequency, the label shows it, and the port list shows the names one per line. |
| Gui.QTMainTab.FreqSliderUpdate | main.py:113-123 | Called with the value the slider has moved to. The frequency becomes the snapped value and is shown and stored. The slider is moved to the snapped value exactly when the value was off a multiple, and otherwise stays at the value. |
| Gui.QTMainTab.StartStopSerial | main.py:125-149 | Starting builds a fresh sender over the current names, starts it at the current frequency and disables the controls. Stopping stops the sender and ends its loop. Each port is closed exactly when it came before the first failing close, or was already closed. Without a failing close the tab goes inactive, the list is empty and the controls are enabled. With one, the list and the labels are kept and the tab stays active. The controls are enabled exactly when inactive. No other field changes: the slider, the frequency label, the stored settings and the shown time stay as they were. Of each port, stopping can change only the open flag. |
| Gui.QTMainTab.StopSerial | main.py:126-136 | The stopping branch, also after an earlier stop whose close raised: the sender is stopped and its loop ends. The tab stays active, with the list and labels as they were, exactly when some close raised. Otherwise the list is empty, the label reads "Inactive" and the button "Start serial". Each port is closed exactly when it came before the first failing close, or was already closed. Of each port only the open flag can change. |
| Gui.QTMainTab.StartSerial | main.py:138-149 | The starting branch: a fresh, started sender over the current names at the current frequency, the start time recorded, the label "Active (00:00:00)" and the button "Stop serial". |
| Gui.QTMainTab.SerialPortListUpdate | main.py:151-153 | The names become the parse of the list's text, and their newline join is stored. |
| Gui.QTMainTab.UpdateLabelTime | main.py:155-163 | While active, the label and a '\r' status line show the split of `elapsed.seconds`, the seconds within the last day, so the hours stay below 24. While inactive nothing changes. |
| Gui.QTMainTab.ShowTime | main.py:160-162 | The label shows "Active (timer)", and "\rSending data (timer)" is written. |
| Gui.QTLogTab.constructor | main.py:166-186 | The log tab starts with one empty line and the bridge's flags clear. |
| Gui.QTLogTab.ClearLogs | main.py:187-188 | Clearing leaves "Cleared logs\n" as the text, that is the message and an empty line. The bridge keeps its flags. |
| Gui.ClearedLinesSplit | main.py:188 | "Cleared logs\n" is two lines, the message and an empty one. |
| Gui.MainWindow.constructor | main.py:191-201 | The control tab starts from the stored frequency and the stored port text split on newlines, as written. On a first start that is one empty name. The log tab starts empty. |
| Gui.MainWindow.Shutdown | main.py:217-218 | At exit an active sender is stopped, also after an earlier stop whose close raised. Its loop ends, each port is closed exactly when it came before the first failing close or was already closed, and the list is emptied when no close raises. An inactive sender and its ports are unchanged, and nothing is written. Only the sender's list and loop flag and the ports' open flags can change. |

## Left out

- Threads, the asyncio event loop, `run_coroutine_threadsafe`, task cancellation, `join` with or without a timeout, and daemon flags are not modelled. Concurrency is outside the model: one pass of a background loop is one method call, and the GUI and a loop never interleave inside a call.
- `time.sleep`, `asyncio.sleep` and `datetime.now()` are not modelled. The sleep has no effect on the state, and the current time is an integer parameter in microseconds.
- pyserial's `Serial`, `write`, `close` and `list_ports.comports()` are foreign I/O. Every outcome is a parameter: the open outcome per attempt, the map of failing writes with their error texts, the set of failing closes, and the list of port records.
- `memreader.py` is not part of this model. It reads the simulator's shared memory, so the packet is an opaque byte sequence passed in.
- `send_serial_data.py` is not part of this model. It is a stand-alone test script writing random bytes.
- Qt's widget layout, styles, colours and `QTextCharFormat`, `QTimer` and signal dispatch are not modelled. The timers become calls of the slot, and `write_signal` is taken as delivered at once (`DirectWrite`); a queued delivery from another thread is not modelled.
- `QSettings` storage is not modelled. Stored values are `Option`s and the session's writes are fields.
- The `int(...)` conversion of the stored frequency is not modelled, since only whole numbers are ever stored.
- Python's `logging` formatting and file output are not modelled. The records handed to it are a list.
- Soft line wrapping is not modelled: `LineUnderCursor` is the whole last text block.
- `QTextCursor.insertText` also starts a new block at '\r' and at U+2029. The model's `Insert` breaks lines only at '\n'. The log messages `logger.py` inserts are not filtered for '\r', so a message holding one would be drawn differently.
- `serialsender.py`'s `task.cancel()` and `loop.stop` in `stop` become clearing `sending`, after which no pass of `send` runs.
- `QTLogTab.__init__`'s `append("")` on the empty widget is modelled as leaving the single empty line.
- Redirecting `sys.stdout`/`sys.stderr` to the tee stream is not modelled. The tee stream is modelled on its own, over stream indices.
- An exception raised by the PyQt slot in `start_stop_serial` is modelled as ending the slot at once, with the program going on. `main.py` installs no `sys.excepthook`, and PyQt6 by default aborts the process when an exception leaves a slot. So a second stop click after a raising close, and the `finally` stop at `main.py:217-218` after one, are states the model allows that the program, by that default, never reaches.
- The outer `try`/`except` of the application's start-up is not modelled.
- Gui.Snap: rounding is exact integer arithmetic. Python's `round(value / tick)` goes through a float, which only differs for values far outside the slider's range.
- BmsSerial.SerialSender.InitPorts: the ports it adds are fresh objects, but its contract states this only through their names.
- SerialSender.SerialSender.InitPorts: the ports it adds are fresh objects, but its contract states this only through their names.
- The serial port objects' baud rate, 115200, is recorded but has no effect.

Two points where the two senders differ:

- `serialsender.py:48-50` does not catch a failing `close`, unlike `bms_serial.py:72-82`. The exception leaves `stop` after the earlier ports are closed, and the list is not cleared. `SerialSender.SerialSender.Stop` returns `ok == false` in that case. `Gui.QTMainTab.StartStopSerial` then leaves the tab active. The model also accepts a further stop after that; see the line on PyQt slot exceptions under "## Left out".
- `bms_serial.py:57-62` closes the ports it drops after a failed write, but `serialsender.py:71` only removes them from the list.

## Findings

| source | as written | input that shows it | evidently intended | confidence | as-written member | corrected member |
|---|---|---|---|---|---|---|
| main.py:195 | The stored port list is split on "\n" without dropping empty pieces. | No stored list, or a stored empty list, is the text "", which loads as `[""]`, so the sender tries to open a port named "". | The list is parsed the way `serial_port_list_update` parses it, so a stored list comes back exactly and an empty one comes back empty. | not executed | Gui.InitialPortNamesEmptyName | Gui.InitialPortNamesRestore |
| main.py:158 | `elapsed.seconds` is the seconds within the last day of the `timedelta`; the whole days are dropped. | After 86405 seconds of activity the label shows "Active (0:00:05)". | The label shows the whole elapsed time, `total_seconds()`, days included. | not executed | Gui.ElapsedAsWrittenDropsDays | Gui.ElapsedSpec |
