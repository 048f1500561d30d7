# check_kitty: a verified model of the Kitty graphics probe

`bin/check_kitty.py` decides whether the terminal it runs in speaks the
Kitty graphics protocol. `detect_kitty_graphics(timeout)` does this:

- It saves the terminal's line-discipline attributes.
- It installs a raw copy: ICANON, ECHO and ISIG cleared, VMIN = 1, VTIME = 0.
- It makes standard input non-blocking by OR-ing `O_NONBLOCK` into the file-status flags (`set_nonblocking`).
- It throws away whatever input is already queued.
- It writes a query-only graphics command (image id 31), followed by a primary device-attributes request.
- It accumulates what the terminal sends back until the reply prefix `ESC _ G i = 3 1 ;` shows up (`True`) or the deadline passes (`False`).
- Whatever happens, a `finally` puts the saved attributes back.

The model has four modules, one per file:

- `Termios` (`termios.dfy`): the attribute record, with the Linux values of the flag bits and control-character indices. It holds the raw copy `RawSettings` and `WithNonblock` (`flags | O_NONBLOCK`).
- `Device` (`device.dfy`): the class `Terminal`, i.e. standard input and output of one terminal, with the calls the probe makes on it.
  - Its fields are the attributes in force, the status flags, a script of what successive `os.read` calls return, the unflushed and the delivered output, a clock, and a log of every call that acts on the device.
  - Which calls raise is a fixed set of faults.
- `Scanning` (`scanning.dfy`): the query, the marker and Python's `in` on bytes. It also holds the pure specification of the two read loops:
  - `AfterDrain` and `DrainTrace` for the drain.
  - `Poll` (one round) and `Scan` (rounds until the marker or the deadline), over an explicit loop state.
  - The lemmas about them.
- `CheckKitty` (`check_kitty.dfy`): the probe itself.
  - `SetNonblocking`, the drain loop `DrainInput`, one scan round `PollOnce` and the scan loop `ScanForReply`.
  - The two halves of the `try` block: `TryProbe` installs, goes non-blocking and drains, then calls `QueryAndScan`.
  - `DetectKittyGraphics`, with its `finally`.
  - Each method is proved against a specification function: `Scan`, `AfterDrain`/`DrainTrace`, `TryLog`/`QueryLog` (the calls made), `TryOutcome`/`QueryOutcome`/`Verdict` (how the call ends).
  - The properties of the probe are lemmas about those functions.

Time is an integer number of 10 ms ticks, which is the poll sleep. The timeout is a tick count, and only `sleep` moves the clock.

Python exceptions become the `Outcome` value `Raised(error)`; the probe never turns an error into a `False` answer:

- `tcgetattr` sits outside the `try`, so on a non-terminal it raises before anything is changed.
- An exception inside the `try` propagates after the restore.
- An exception raised by the restore itself replaces the result, including a `True` or `False` about to be returned.

## Model

| member | source | states |
|---|---|---|
| Termios.RawSettings | bin/check_kitty.py:23-28 | the raw copy is well formed and in raw mode (ICANON, ECHO, ISIG clear; VMIN 1; VTIME 0), and every other local-mode bit, every other flag word, both speeds and every other control character equal the saved attributes |
| Termios.RawSettingsUnique | bin/check_kitty.py:26-28 | those properties determine the raw copy: any raw attributes that agree with the saved ones everywhere else are the raw copy |
| Termios.WithNonblock | bin/check_kitty.py:17 | the new flags have `O_NONBLOCK` set and every other status bit as before |
| Device.Terminal.GetAttrs | bin/check_kitty.py:22-23 | `tcgetattr` yields the attributes in force exactly when the descriptor is a terminal |
| Device.Terminal.SetAttrs | bin/check_kitty.py:31 | `tcsetattr` installs the attributes unless it raises, and is logged either way |
| Device.Terminal.GetFlags | bin/check_kitty.py:16 | F_GETFL reports the current status flags |
| Device.Terminal.SetFlags | bin/check_kitty.py:17 | F_SETFL installs the flags unless it raises, and is logged either way |
| Device.Terminal.Read | bin/check_kitty.py:36 | a read takes the next scripted result, or fails with EAGAIN once nothing is queued |
| Device.Terminal.Write | bin/check_kitty.py:44 | a write buffers the bytes after those already pending, unless it raises |
| Device.Terminal.Flush | bin/check_kitty.py:45 | a flush delivers the pending bytes, in order, after those already delivered, unless it raises |
| Device.Terminal.Time | bin/check_kitty.py:47 | the clock is read without moving it |
| Device.Terminal.Sleep | bin/check_kitty.py:54 | a sleep moves the clock forward by its length and is logged |
| Scanning.Contains | bin/check_kitty.py:58 | the byte test answers true exactly when the marker occurs somewhere in the buffer |
| Scanning.QueryLacksMarker | bin/check_kitty.py:43 | the query does not contain the marker (it has `i=31,` where the reply has `i=31;`), so an echo of it is no reply |
| Scanning.AfterDrain | bin/check_kitty.py:35-39 | the drain never leaves more input than there was |
| Scanning.DrainStopsAtFirstStall | bin/check_kitty.py:35-39 | the drain consumes the script up to and including the first read that brings nothing or raises, none before it is such a read, and the rest is left untouched |
| Scanning.DrainTrace | bin/check_kitty.py:35-39 | the drain makes at least one call, and every call it makes is a read |
| Scanning.DrainOnlyReads | bin/check_kitty.py:35-39 | the drain only reads: one read per entry it consumes, plus the EAGAIN read when the script runs dry |
| Scanning.DrainDiscardsStaleInput | bin/check_kitty.py:35-39 | bytes queued before the probe, even a complete reply, are thrown away as long as a stall follows them |
| Scanning.Poll | bin/check_kitty.py:51-61 | a round consumes exactly the first scripted read when there is one and none otherwise, and a round that consumes none sleeps one poll interval |
| Scanning.Scan | bin/check_kitty.py:50-63 | the loop never turns the clock back and never consumes more reads than there are |
| Scanning.ScanAfter | bin/check_kitty.py:47-63 | the calls of the scan do not depend on what happened before it: they are appended to the earlier log |
| Scanning.ScanReportsOnlyMarker | bin/check_kitty.py:50-59 | a reply is reported only before the deadline and only when the buffer holds the marker |
| Scanning.ScanOnlyReadsAndSleeps | bin/check_kitty.py:50-61 | the scan only reads and sleeps |
| Scanning.ScanLeavesRest | bin/check_kitty.py:52 | the scan consumes reads from the front and leaves the rest of the script as it was |
| Scanning.ScanBuffersWhatItReads | bin/check_kitty.py:48-56 | the buffer ends as the start buffer followed by exactly the bytes of the consumed reads, in order |
| Scanning.ScanGivesUpAtDeadline | bin/check_kitty.py:50-63 | without the marker the loop ends exactly at the deadline, or at once when it has already passed |
| Scanning.Window | bin/check_kitty.py:50-61 | the reads made before the deadline are a prefix of the script; every one of them starts before the stalls ahead of it exhaust the budget, and the first read left out starts after |
| Scanning.ScanMatchesWindow | bin/check_kitty.py:50-59 | the scan reports a reply exactly when the marker occurs in the bytes of the reads made before the deadline |
| Scanning.ScanStopsAtFirstMatch | bin/check_kitty.py:56-59 | the scan returns on the very read that completes the marker: the bytes before that read do not hold it yet |
| Scanning.NoMarkerNoReply | bin/check_kitty.py:56-59 | input that never contains the marker is never taken for a reply |
| CheckKitty.SetNonblocking | bin/check_kitty.py:15-17 | the status flags gain `O_NONBLOCK` and keep every other bit, unless F_SETFL raises; the descriptor is then non-blocking |
| CheckKitty.DrainInput | bin/check_kitty.py:35-39 | the input left and the reads made are those of the drain specification |
| CheckKitty.PollOnce | bin/check_kitty.py:51-61 | one pass of the loop body does what `Poll` says, for the buffer, the input, the clock and the log |
| CheckKitty.ScanForReply | bin/check_kitty.py:47-63 | the answer, the input left, the time spent and the calls made are those of `Scan` from an empty buffer at the loop's start |
| CheckKitty.QueryAndScan | bin/check_kitty.py:43-63 | the query is written and flushed, whole, after the pending output, and then the scan runs; a raising write or flush stops it with that error, before any read or sleep and with nothing delivered, the query left buffered if only the flush raised |
| CheckKitty.TryProbe | bin/check_kitty.py:30-63 | the `try` block stops at the first call that raises; its outcome, calls, attributes and status flags follow its specification; on a return the query was delivered and the input and clock are where the scan left them; on a raise nothing was delivered, no time passed, the input is drained only if the descriptor was made non-blocking, and the query is buffered only if its write succeeded |
| CheckKitty.DetectKittyGraphics | bin/check_kitty.py:20-66 | a non-terminal raises with nothing changed; otherwise the raw copy is tried, then the saved attributes are restored and are in force afterwards unless the restore raises; `O_NONBLOCK` stays set; the result is the scan's answer or the first error, with a failing restore winning; output, input and clock are those the `try` block left, even when the restore raises afterwards |
| CheckKitty.OnlyRawSettingsApplied | bin/check_kitty.py:30-63 | the `try` block writes the attributes exactly once, with the raw copy |
| CheckKitty.QueryAddsNoAttrs | bin/check_kitty.py:43-63 | writing the query and scanning never touch the attributes |
| CheckKitty.AttributesSetTwice | bin/check_kitty.py:30-66 | on every way out the attributes are written exactly twice: first the raw copy, last the saved attributes |
| CheckKitty.AttemptedIsPrefix | bin/check_kitty.py:30-63 | a run in which calls raise makes a prefix of the calls of a clean run, and at least the first `tcsetattr` |
| CheckKitty.CleanRunReturnsScan | bin/check_kitty.py:30-66 | when nothing raises, the probe returns the scan's answer |
| CheckKitty.SupportedIffMarkerBeforeDeadline | bin/check_kitty.py:35-63 | the scan run after the drain finds a reply exactly when the marker occurs in the bytes read after the drain and before the deadline |
| CheckKitty.ProbeSupportedIffMarkerBeforeDeadline | bin/check_kitty.py:20-66 | the whole probe returns `True` exactly when no call raises (the restore included) and the marker occurs in the bytes read after the drain and before the deadline |
| CheckKitty.EchoedQueryMeansUnsupported | bin/check_kitty.py:43-59 | a terminal that only echoes the query is not taken for one that supports the protocol |
| CheckKitty.SilenceMeansUnsupported | bin/check_kitty.py:50-63 | a terminal that sends nothing answers "not supported" |
| CheckKitty.NoTimeMeansUnsupported | bin/check_kitty.py:50-63 | with a timeout of zero or less the loop body never runs (the scan ends in its start state: no read, no sleep) and the answer is "not supported" |
| CheckKitty.SplitReplyIsFound | bin/check_kitty.py:52-59 | a reply split over two reads, with other bytes around it, is found when both reads come before the deadline |

## Left out

- `bin/django-runner.py` is not part of this model: it only orchestrates subprocesses, files, arguments and prompts.
- The command-line entry point (`bin/check_kitty.py:69-80`) is left out. It parses a float timeout with a fallback of 0.5 and maps the answer to an exit code.
- The real `termios`, `fcntl`, `os.read`, `sys.stdout` and `time` calls are left out. They become methods of `Terminal` over explicit state. What the terminal sends is a script of read results fixed in advance, and which calls raise is a fixed set.
- Standard input and standard output are one `Terminal`. The model does not distinguish two descriptors for the same device.
- Floating-point time is left out. Time is integer ticks of 10 ms, reads and writes take no time, and the clock moves only in `sleep`. A timeout that is not a whole number of ticks is not modelled, and neither is the default argument `timeout: float = 0.5` of `detect_kitty_graphics` (`bin/check_kitty.py:20`): the timeout is always passed in ticks.
- `Device.Terminal.GetFlags` never raises. The descriptor has already passed `tcgetattr` when `fcntl(F_GETFL)` is called, so its failure is not modelled.
- The second `tcgetattr` returns the same attributes as the first. Nothing can change them in between in the model.
- The read script is a finite sequence, so every loop of the model ends; the drain ends because the script runs dry. The drain of `bin/check_kitty.py:36` has no time bound: a terminal that keeps sending data keeps it reading forever, which the model cannot show.
- `Device.Terminal.Read` requires the descriptor to be non-blocking. A blocking read of an empty queue would wait forever, and the probe reads only after `set_nonblocking` has succeeded.
- Every `OSError` from a read is treated alike, and an exhausted script reads as EAGAIN. Exceptions other than `OSError` from `os.read`, `KeyboardInterrupt` and signals are not modelled.
- `CheckKitty.DetectKittyGraphics` builds the raw copy through `Termios.RawSettings`, whose body applies the three updates of lines 26-28. The list returned by the second `tcgetattr` is fresh and not shared, so editing it in place and deriving a new value agree.
