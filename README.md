# unison-editor back end, modelled in Dafny

This project models the Rust back end of the Unison editor (`src-tauri/src`). The back end:

- runs the Unison codebase manager (UCM) in a pseudo-terminal;
- relays the language server between the editor's WebSocket and UCM's TCP port;
- talks to `ucm mcp` over JSON-RPC;
- picks free local ports;
- watches files;
- exposes all of this as commands.

Each source file becomes one module:

- **`UcmPty`** (`ucm_pty.rs`). The terminal session: a `UcmPtyManager` class holding the shared `running` flag, the detected context and the reader thread's line buffer.
  - One turn of the reader loop is the method `ReadOnce`, proved against the function `ReaderStep`. A turn emits the output, detects the lock-failure text, parses the prompt and trims the buffer to its last 512 bytes once it passes 1024.
  - The events sent to the front end and the bytes written to the terminal are logged in order.
  - `spawn` picks the API port from 5858; the language-server port is always 5757.
- **`UcmPrompt`** (`parse_ucm_prompt` in `ucm_pty.rs`). Scans the lines of the buffer from the last one back for `project/branch[:path]> `.
- **`LspFraming`** (`read_lsp_message` in `lsp_proxy.rs`, written again in `commands.rs`). The Content-Length framing:
  - `Frame` is what the writers produce;
  - `ReadMessage` is what the reader accepts, and `ReadLspMessage` is the byte-at-a-time loop proved equal to it;
  - the round trip is proved.
- **`LspProxy`** (`lsp_proxy.rs`). The two directions of the relay, each a loop method over everything its source delivers. The outcome of each write to the other side is an input. This module also holds the log-preview finding below.
- **`McpClient`** (`mcp_client.rs`).
  - The request-id counter, which wraps like `AtomicU64::fetch_add`.
  - The `initialized` gate.
  - The requests written.
  - The classification of the `update-definitions` answer.
  - `parse_ucm_output`, both as the source's loops and as a specification function.
- **`Json`**. The accessors of `serde_json::Value` the client uses.
- **`PortUtils`** (`port_utils.rs`). Port search over a probe predicate.
- **`FileWatcher`** (`file_watcher.rs`). The registry class, and the poll watcher's callback with its 100 ms debounce. The subtraction of times is in wrapping `u64`.
- **`Commands`** (`commands.rs`):
  - the `..` check of `validate_path`;
  - `list_directory_impl` over a directory tree given as data;
  - the one-shot LSP connection;
  - `AppState` with the terminal-session commands.
- **`Text`**, **`Utf8`**, **`Wrappers`**. The parts of Rust's standard library the code relies on: `trim`, `lines`, `find`/`rfind`, `contains`, `parse::<usize>`, `to_string`, UTF-8 encoding and decoding, byte length, and byte-index slicing that panics off a character boundary.

The model follows the code on these points:

- The prompt is parsed after every chunk read.
- `is_running` stays true after UCM exits on its own. Only the lock-failure text and `stop` clear it.
- `Lines` follows Rust's `str::lines` exactly: it drops a `\r` only before `\n`, and yields no empty line after a final `\n`.

Clocks, sockets, the file system, the pseudo-terminal and the subprocesses all become parameters:

- the time in milliseconds;
- port probes `Port -> bool`;
- directory trees as `Listing` data;
- the bytes a server will send;
- the lines a subprocess will answer;
- whether a write succeeds;
- a JSON parse function.

## Model

| member | source | states |
|---|---|---|
| Text.TrimStart | src-tauri/src/ucm_pty.rs:349 | the result is a suffix that starts with a non-whitespace character, and everything dropped is whitespace |
| Text.TrimEnd | src-tauri/src/ucm_pty.rs:349 | the result is a prefix that ends with a non-whitespace character, and everything dropped is whitespace |
| Text.TrimIsTrimmed | src-tauri/src/ucm_pty.rs:349 | `trim` leaves no whitespace at either end, never grows, and only keeps characters of its input |
| Text.TrimOfTrimmed | src-tauri/src/ucm_pty.rs:369-370 | a string with no whitespace at either end is left unchanged |
| Text.TrimDropsTrailingSpace | src-tauri/src/ucm_pty.rs:349 | trailing whitespace is removed, and what is left is the text before it |
| Text.TrimSkipsLeadingSpace | src-tauri/src/lsp_proxy.rs:216 | leading whitespace does not change the result of `trim` |
| Text.IndexOf | src-tauri/src/ucm_pty.rs:361 | `find(c)` gives the first index holding `c`, or None exactly when `c` does not occur |
| Text.LastIndexOf | src-tauri/src/ucm_pty.rs:357 | `rfind(c)` gives the last index holding `c`, or None exactly when `c` does not occur |
| Text.FirstIndexOf | src-tauri/src/ucm_pty.rs:361 | an occurrence with none before it is what `find` returns |
| Text.LastIndexOfIs | src-tauri/src/ucm_pty.rs:368 | an occurrence with none after it is what `rfind` returns |
| Text.ContainsInPrefix | src-tauri/src/ucm_pty.rs:225 | whatever a prefix of the buffer contains, the buffer contains |
| Text.ContainsInSuffix | src-tauri/src/ucm_pty.rs:225 | whatever a suffix of the buffer contains, the buffer contains |
| Text.Lines | src-tauri/src/ucm_pty.rs:346 | no line that `lines` yields holds a `\n`; line breaks are `\n` and `\r\n` (`LinesOfCrlf`), a lone `\r` stays in its line (`LinesKeepLoneCr`), and a final `\n` adds no empty line (`LinesOfTwo`) |
| Text.LinesAppend | src-tauri/src/ucm_pty.rs:346 | splitting text cut after a line break gives the lines of both parts, in order |
| Text.LinesChars | src-tauri/src/ucm_pty.rs:346 | every character of every line is a character of the text |
| Text.LinesOfTwo | src-tauri/src/ucm_pty.rs:346 | a finished line followed by an unfinished one splits into exactly those two lines |
| Text.LinesOfCrlf | src-tauri/src/ucm_pty.rs:346 | a `\r\n` ends the line before it, and neither character is part of that line |
| Text.LinesKeepLoneCr | src-tauri/src/ucm_pty.rs:346 | a final `\r` not followed by `\n` ends no line and stays in the last line |
| Text.Decimal | src-tauri/src/lsp_proxy.rs:127-128 | `to_string` of a number is a non-empty run of digits, with no leading zero except for 0 itself |
| Text.ParseUsize | src-tauri/src/lsp_proxy.rs:216 | `parse::<usize>` accepts exactly an optional `+` and one or more digits whose value fits in 64 bits, and returns that value |
| Text.ParseUsizeAccepts | src-tauri/src/lsp_proxy.rs:216 | every optional `+` followed by one or more digits whose value fits in 64 bits is accepted, with that value (the converse of `ParseUsize`'s contract) |
| Text.DecimalRoundTrip | src-tauri/src/lsp_proxy.rs:127-128 | parsing the formatted length gives the length back, for every `usize` |
| Text.DecimalIsTrimmed | src-tauri/src/lsp_proxy.rs:216 | a formatted number has nothing to trim |
| Utf8.EncodeChar | src-tauri/src/lsp_proxy.rs:127 | one character takes one to four bytes |
| Utf8.DecodeChar | src-tauri/src/lsp_proxy.rs:226 | a decoded character takes between one and four of the available bytes |
| Utf8.DecodeEncodeChar | src-tauri/src/lsp_proxy.rs:226 | decoding the bytes of one character gives that character and its width, whatever follows |
| Utf8.DecodeEncode | src-tauri/src/lsp_proxy.rs:226 | `String::from_utf8` of the bytes of a string gives the string back |
| Utf8.DecodeCharIsEncoding | src-tauri/src/lsp_proxy.rs:226 | the bytes one character is decoded from are exactly that character's encoding |
| Utf8.EncodeDecode | src-tauri/src/lsp_proxy.rs:226 | bytes that `String::from_utf8` accepts are exactly the encoding of the string it returns |
| Utf8.EncodeAppend | src-tauri/src/lsp_proxy.rs:127 | the bytes of a concatenation are the bytes of the parts, concatenated |
| Utf8.EncodeAscii | src-tauri/src/lsp_proxy.rs:199 | ASCII text takes one byte per character, and each byte is its character's code |
| Utf8.CharBoundary | src-tauri/src/ucm_pty.rs:254 | a boundary found at byte `n` is a character count whose bytes fill exactly `n` bytes |
| Utf8.SliceFromByte | src-tauri/src/ucm_pty.rs:254 | `&s[n..]`, when it does not panic, is a suffix of `s` holding its last `len - n` bytes |
| Utf8.InsideCharIsNoBoundary | src-tauri/src/ucm_pty.rs:254 | a byte index strictly inside a multi-byte character is not a boundary, so slicing there panics |
| Utf8.ByteLenBound | src-tauri/src/ucm_pty.rs:253 | a string takes at most four bytes per character |
| Utf8.ByteLenAppend | src-tauri/src/ucm_pty.rs:222 | the byte length of a concatenation is the sum of the byte lengths |
| UcmPrompt.BeforeColon | src-tauri/src/ucm_pty.rs:360-365 | the context part holds no `:` and is a prefix of the prompt part |
| UcmPrompt.PromptPart | src-tauri/src/ucm_pty.rs:349-358 | a prompt part is found only in a line holding `>`, and it consists of that line's characters |
| UcmPrompt.SplitContext | src-tauri/src/ucm_pty.rs:367-383 | an accepted project and branch are non-empty, trimmed and free of spaces; the split needs a `/`, and the branch holds no `/` |
| UcmPrompt.ParsePromptLine | src-tauri/src/ucm_pty.rs:348-384 | a parsed line holds `>` and `/`; its names are accepted and hold no `:`, and the branch holds no `/` |
| UcmPrompt.ScanLinesNone | src-tauri/src/ucm_pty.rs:348-387 | the scan finds nothing exactly when no line parses; blank and malformed lines are skipped, and do not end the search |
| UcmPrompt.ScanLinesFindsLast | src-tauri/src/ucm_pty.rs:348-387 | what the scan finds comes from the last line that parses, and no later line parses |
| UcmPrompt.ScanLinesLast | src-tauri/src/ucm_pty.rs:348 | a last line that parses decides the scan |
| UcmPrompt.ScanLinesSkipsLast | src-tauri/src/ucm_pty.rs:352-354 | a last line that does not parse is skipped |
| UcmPrompt.ParseUcmPrompt | src-tauri/src/ucm_pty.rs:341-388 | `parse_ucm_prompt`: the scan over `Lines` with `ParsePromptLine`; its contract is `ParseUcmPromptFinds` |
| UcmPrompt.ParseUcmPromptFinds | src-tauri/src/ucm_pty.rs:341-388 | a context is found exactly when some line parses; it is that of the last such line, which holds a `>` and a `/` before any `:` of its prompt part |
| UcmPrompt.NoPromptWithoutGreaterThan | src-tauri/src/ucm_pty.rs:357 | output without a `>` holds no prompt |
| UcmPrompt.PromptRoundTrip | src-tauri/src/ucm_pty.rs:341-388 | a prompt `project/branch[:path]> ` printed as the last line parses back to its project and branch, for every valid pair of names and every path |
| UcmPrompt.TerminatedPromptRoundTrip | src-tauri/src/ucm_pty.rs:341-388 | the same holds when the prompt line ends with a line break |
| UcmPrompt.PromptLineParses | src-tauri/src/ucm_pty.rs:348-384 | a prompt line on its own parses to its project and branch |
| UcmPrompt.PromptPartOfPrompt | src-tauri/src/ucm_pty.rs:349-358 | trimming a prompt and cutting it at its last `>` leaves the text before `> ` |
| UcmPrompt.ColonStartsPath | src-tauri/src/ucm_pty.rs:361-365 | the path suffix starts at the first `:` |
| UcmPrompt.SplitsAtLastSlash | src-tauri/src/ucm_pty.rs:368-370 | `project/branch` splits back into its two names |
| UcmPrompt.SplitRejectsSpace | src-tauri/src/ucm_pty.rs:375 | a project name holding a space is refused |
| UcmPrompt.PromptWithSpaceIsNoPrompt | src-tauri/src/ucm_pty.rs:373-377 | a prompt whose project holds a space is no prompt |
| UcmPrompt.PromptTextOneLine | src-tauri/src/ucm_pty.rs:346 | a prompt whose path holds no line break is one line, ending in a space |
| UcmPrompt.ParsesBarePrompt | src-tauri/src/ucm_pty.rs:395-400 | `tour/main> ` parses to tour and main |
| UcmPrompt.ParsesPromptWithPath | src-tauri/src/ucm_pty.rs:403-408 | `myproject/feature:lib.utils> ` parses to myproject and feature |
| UcmPrompt.ParsesPromptAfterOutput | src-tauri/src/ucm_pty.rs:411-416 | a prompt after two lines of output parses to conveynow and main |
| UcmPrompt.FindsNoPromptInPlainText | src-tauri/src/ucm_pty.rs:419-422 | text without a prompt parses to None |
| UcmPty.TrimmedIsBounded | src-tauri/src/ucm_pty.rs:253-255 | a buffer that survives the trim holds at most 1024 bytes; a buffer that was cut holds exactly 512 |
| UcmPty.DetectContext | src-tauri/src/ucm_pty.rs:237-250 | the prompt found in the buffer, with a context event only when it differs from the stored one; its properties are `DetectOnlyChanges`, `ContextEventOnlyOnChange` and `DetectFound` |
| UcmPty.TrimBuffer | src-tauri/src/ucm_pty.rs:252-255 | the buffer kept after a turn, or None for the panic at a non-boundary; its properties are `TrimmedIsBounded`, `TrimKeepsTail`, `TrimIsSuffix` and `TrimPanicsInsideChar` |
| UcmPty.ReaderStep | src-tauri/src/ucm_pty.rs:200-263 | one turn of the reader loop as a function; `UcmPtyManager.ReadOnce` is proved against it, and `OutputComesFirst`, `LockSentinelStopsReader` and `EndOfStreamKeepsRunning` state what it does |
| UcmPty.TextStep | src-tauri/src/ucm_pty.rs:221-255 | the part of a turn after the chunk decoded; `TextStepUnlocked`, `TextStepContextEvents` and `TextStepKeepsTrimmed` state what it does |
| UcmPty.UcmPtyManager.constructor | src-tauri/src/ucm_pty.rs:268-274 | a new session is running, with no context, an empty buffer and nothing emitted or written |
| UcmPty.UcmPtyManager.ReadOnce | src-tauri/src/ucm_pty.rs:200-263 | one turn of the reader loop moves the session to `ReaderStep`'s state, appends its events in order, writes nothing, and keeps a running reader's buffer within 1024 bytes |
| UcmPty.UcmPtyManager.Write | src-tauri/src/ucm_pty.rs:286-295 | the data reaches the terminal unless the write fails; the result is the write error, then the flush error, then success; the reader state is unchanged |
| UcmPty.UcmPtyManager.SwitchContext | src-tauri/src/ucm_pty.rs:298-301 | writes `switch project/branch` and a newline, with `write`'s outcome |
| UcmPty.UcmPtyManager.Stop | src-tauri/src/ucm_pty.rs:322-324 | clears `running` and changes nothing else |
| UcmPty.UcmPtyManager.Drop | src-tauri/src/ucm_pty.rs:333-337 | dropping the manager stops it and changes nothing else |
| UcmPty.UcmPtyManager.GetContext | src-tauri/src/ucm_pty.rs:304-306 | `get_context`: the stored context, which only a reader turn (`ReadOnce`) changes |
| UcmPty.UcmPtyManager.IsRunning | src-tauri/src/ucm_pty.rs:328-330 | `is_running`: the shared flag, which `Stop` and the lock-failure text clear and nothing else does |
| UcmPty.WriteOutcome | src-tauri/src/ucm_pty.rs:286-295 | the result of `write`: the write error first, then the flush error, then success; `UcmPtyManager.Write` is stated through it |
| UcmPty.Spawn | src-tauri/src/ucm_pty.rs:57-68 | fails with "Could not find available port for UCM API server" when 5858–5957 are all taken, and otherwise with the start error; it succeeds exactly when neither happens, with the first free API port, LSP port 5757 and a fresh running session |
| UcmPty.OutputComesFirst | src-tauri/src/ucm_pty.rs:212-218 | every chunk read is emitted first, unchanged and once; at most one other event follows, and it is not output |
| UcmPty.InvalidUtf8IsNotBuffered | src-tauri/src/ucm_pty.rs:221 | a chunk that is not UTF-8 is shown but changes no state |
| UcmPty.LockSentinelStopsReader | src-tauri/src/ucm_pty.rs:225-234 | once the buffer holds "Failed to obtain a file lock", the turn clears `running`, emits the lock error after the output, leaves the loop and stores no prompt |
| UcmPty.EndOfStreamKeepsRunning | src-tauri/src/ucm_pty.rs:207-211 | end of stream and read errors leave the loop and emit nothing, and `running` keeps its value |
| UcmPty.StoppedReaderExits | src-tauri/src/ucm_pty.rs:202-204 | after `stop`, the next turn leaves the loop whatever the read would return |
| UcmPty.DetectOnlyChanges | src-tauri/src/ucm_pty.rs:237-250 | the stored context is replaced only by a different parsed context, and exactly then an event carrying it is emitted |
| UcmPty.ContextEventOnlyOnChange | src-tauri/src/ucm_pty.rs:237-250 | in any turn, the stored context changes exactly when a context event is emitted; the event carries the new context, and no turn emits two |
| UcmPty.TextStepContextEvents | src-tauri/src/ucm_pty.rs:225-255 | the same for the rest of a turn once the chunk is decoded |
| UcmPty.BufferStaysBounded | src-tauri/src/ucm_pty.rs:252-255 | a reader that goes on keeps its buffer within 1024 bytes |
| UcmPty.TrimKeepsTail | src-tauri/src/ucm_pty.rs:253-255 | a cut buffer keeps exactly its last 512 bytes, as a suffix |
| UcmPty.TrimIsSuffix | src-tauri/src/ucm_pty.rs:253-255 | what survives the trim is a suffix of the buffer |
| UcmPty.TrimKeepsLastChar | src-tauri/src/ucm_pty.rs:253-255 | what survives the trim of a non-empty buffer ends with the buffer's last character |
| UcmPty.TextStepKeepsTrimmed | src-tauri/src/ucm_pty.rs:252-255 | a turn that goes on stores the trimmed buffer |
| UcmPty.PromptTextStep | src-tauri/src/ucm_pty.rs:237-250 | text that completes a prompt in the buffer stores that prompt's context |
| UcmPty.DetectFound | src-tauri/src/ucm_pty.rs:237-250 | a parsed prompt becomes the stored context, with an event exactly when it differs from the stored one |
| UcmPty.TextStepUnlocked | src-tauri/src/ucm_pty.rs:225-255 | without the lock-failure text a turn keeps running, stores what detection found and emits the output followed by detection's event, if any |
| UcmPty.ChunkStoresContext | src-tauri/src/ucm_pty.rs:221-250 | a chunk that completes a prompt stores its context, and the session keeps running |
| UcmPty.LineChunkKeepsLineEnd | src-tauri/src/ucm_pty.rs:222-255 | after a chunk that ends a line, a buffer that goes on still ends at a line break |
| UcmPty.ChunkOfTextIsTextStep | src-tauri/src/ucm_pty.rs:212-222 | a running reader handles the bytes of a non-empty text as that text |
| UcmPty.PromptLineSetsContext | src-tauri/src/ucm_pty.rs:221-250 | a full prompt line read at the start of a line stores its project and branch, and emits an event only if they changed |
| UcmPty.RepeatedPromptLineEmitsOnce | src-tauri/src/ucm_pty.rs:237-250 | reading the same full prompt line twice emits no context event the second time |
| UcmPty.ShortTextStep | src-tauri/src/ucm_pty.rs:253 | a buffer within 1024 bytes is kept whole and the reader goes on |
| UcmPty.TwoContextEvents | src-tauri/src/ucm_pty.rs:237-250 | two reads that each leave a new context in the buffer emit one event each |
| UcmPty.TrimPanicsInsideChar | src-tauri/src/ucm_pty.rs:254 | the trim panics when byte `len - 512` falls inside a multi-byte character |
| UcmPty.TrimCanPanic | src-tauri/src/ucm_pty.rs:254 | 512 `a`, then `é`, then 511 `a` (1025 bytes) makes the trim panic |
| UcmPty.TrimPanicLeavesRunning | src-tauri/src/ucm_pty.rs:237-255 | when the trim panics, the turn's events are still emitted, the reader thread dies, and the session still reports itself running |
| UcmPty.SwitchCommandIsOneLine | src-tauri/src/ucm_pty.rs:299 | the switch command is valid UTF-8 and a single line |
| UcmPty.SwitchCommandNamesContext | src-tauri/src/ucm_pty.rs:299 | the switch argument splits at its last `/` into the project and branch, as the prompt parser splits them |
| UcmPty.SwitchCommand | src-tauri/src/ucm_pty.rs:299 | the bytes of `switch project/branch` and a line break; `SwitchCommandIsOneLine` and `SwitchCommandNamesContext` state its properties |
| UcmPty.GluedProjectHasSpace | src-tauri/src/ucm_pty.rs:375 | a prompt followed by more text reads as a project holding a space |
| UcmPty.GluedPromptsAreNoPrompt | src-tauri/src/ucm_pty.rs:373-377 | two prompts glued on one line are no prompt |
| UcmPty.SecondLineDecides | src-tauri/src/ucm_pty.rs:348-387 | after a complete prompt line and an unfinished line, the unfinished line decides if it parses, and otherwise the complete one does |
| UcmPty.RepeatedPromptAfterPartialLine | src-tauri/src/ucm_pty.rs:237-250 | reading the same prompt twice after an unfinished line emits two context events: the joined context, then the earlier one again |
| UcmPty.PromptJoinsPartialLine | src-tauri/src/ucm_pty.rs:222-250 | the first read joins the prompt to the unfinished line |
| UcmPty.DoubledPromptFallsBack | src-tauri/src/ucm_pty.rs:348-387 | the second read spoils the joined line, and the earlier prompt decides |
| PortUtils.FirstFree | src-tauri/src/port_utils.rs:5-9 | the first free port of the range; every port before it is taken, and None means all are taken |
| PortUtils.FreeIn | src-tauri/src/port_utils.rs:14-33 | the free ports of a range, strictly ascending; every free port of the range is among them |
| PortUtils.FreeInPrefix | src-tauri/src/port_utils.rs:18-23 | scanning less of the range finds a prefix of what scanning more finds |
| PortUtils.FindAvailablePorts | src-tauri/src/port_utils.rs:14-33 | returns the first `count` free ports of the 100 in scan order, or None exactly when fewer are free |
| PortUtils.FoundPortsDistinct | src-tauri/src/port_utils.rs:14-33 | the ports returned are free, within the range and pairwise distinct |
| PortUtils.SinglePortIsFirstOfMany | src-tauri/src/port_utils.rs:5-9 | the single-port search finds the head of the free ports |
| PortUtils.FindAvailablePortIsHead | src-tauri/src/port_utils.rs:5-9 | `find_available_port` is the first port `find_available_ports` would return |
| PortUtils.FindAvailablePort | src-tauri/src/port_utils.rs:5-9 | `find_available_port` as the first free port of `[start, start + 100)`; `FindAvailablePortIsHead` and `FirstFree` state its properties |
| LspFraming.Latin1 | src-tauri/src/lsp_proxy.rs:199 | each header byte becomes the character with that code |
| LspFraming.Header | src-tauri/src/lsp_proxy.rs:127-128 | the `Content-Length: n` header and its blank line; `ContentLengthOfHeader` and `HeaderLengthOfFrame` read it back |
| LspFraming.Frame | src-tauri/src/lsp_proxy.rs:127-128 | the bytes written for one message; `FrameRoundTrip` reads it back |
| LspFraming.ReadMessage | src-tauri/src/lsp_proxy.rs:188-226 | `read_lsp_message` as a function of the stream; `ReadLspMessage` is proved equal to it, and `FrameRoundTrip`, `TruncatedBodyIsBodyEof` and `UnterminatedHeaderIsHeaderEof` state its outcomes |
| LspFraming.ReadBody | src-tauri/src/lsp_proxy.rs:210-226 | no length is `BadLength`, a short stream is `BodyEof`, a body that is not UTF-8 is `BadUtf8`; `BodyOfFrame` states the success case |
| LspFraming.HeaderLength | src-tauri/src/lsp_proxy.rs:193-208 | the header is the shortest prefix ending in `\r\n\r\n`; None exactly when no prefix does |
| LspFraming.FirstWithPrefix | src-tauri/src/lsp_proxy.rs:213-214 | the first line starting with `Content-Length:`, or None exactly when no line does |
| LspFraming.SecondField | src-tauri/src/lsp_proxy.rs:215 | `split(':').nth(1)` exists exactly when the line holds `:`, and holds no `:` itself |
| LspFraming.ContentLength | src-tauri/src/lsp_proxy.rs:210-217 | an announced length is a `usize` |
| LspFraming.ReadLspMessage | src-tauri/src/lsp_proxy.rs:188-226 | the byte-at-a-time read gives exactly `ReadMessage` of the stream: the body and the unread rest, or why it failed |
| LspFraming.ReadMessageConsumes | src-tauri/src/lsp_proxy.rs:188-226 | a successful read consumes at least one byte and leaves a suffix of the stream |
| LspFraming.NoLengthLine | src-tauri/src/lsp_proxy.rs:217 | a header without a `Content-Length:` line announces no length |
| LspFraming.FrameLayout | src-tauri/src/lsp_proxy.rs:127-128 | a frame is the header's bytes, then exactly the text's bytes |
| LspFraming.HeaderLengthOfFrame | src-tauri/src/lsp_proxy.rs:193-208 | the reader finds a frame's header exactly where it ends |
| LspFraming.HeaderPrefixNotTerminated | src-tauri/src/lsp_proxy.rs:202-207 | no shorter prefix of a header ends the header |
| LspFraming.HeaderLines | src-tauri/src/lsp_proxy.rs:213 | the written header's first line is the length line |
| LspFraming.ContentLengthOfHeader | src-tauri/src/lsp_proxy.rs:210-217 | the written header announces the length it was written with |
| LspFraming.FrameRoundTrip | src-tauri/src/lsp_proxy.rs:127-128 | reading a frame gives back its text and leaves what follows unread, for every text whose length is a `usize` |
| LspFraming.BodyOfFrame | src-tauri/src/lsp_proxy.rs:219-226 | the announced number of bytes after the header decode to the text and the rest stays unread |
| LspFraming.HeaderOfFrame | src-tauri/src/lsp_proxy.rs:193-217 | in front of any bytes, the header for `n` is found whole and announces `n` |
| LspFraming.TruncatedBodyIsBodyEof | src-tauri/src/lsp_proxy.rs:220-224 | a frame cut inside its body fails as a stream that ended before the body |
| LspFraming.UnterminatedHeaderIsHeaderEof | src-tauri/src/lsp_proxy.rs:193-197 | a stream that never ends a header fails as a header that ended early |
| LspProxy.ForwardedTexts | src-tauri/src/lsp_proxy.rs:120-150 | the forwarded texts are no more than the messages read |
| LspProxy.FramesOf | src-tauri/src/lsp_proxy.rs:127-128 | one frame per text, in order |
| LspProxy.WriteOutcome | src-tauri/src/lsp_proxy.rs:127-135 | the frames written and the result for the given write and flush outcomes; `ForwardWsToLsp` is stated through it |
| LspProxy.FirstFailure | src-tauri/src/lsp_proxy.rs:131-135 | the first write that does not go through; every write before it does, and None means all do |
| LspProxy.ForwardWsToLsp | src-tauri/src/lsp_proxy.rs:116-152 | writes the frames of the text messages before the first Close or read error, in order. It stops at the first failed write, whose frame counts as not written (a partial write is not modelled), with "Failed to write to LSP", or after a failed flush, whose frame is on the server, with "Failed to flush LSP write" |
| LspProxy.IgnoredMessage | src-tauri/src/lsp_proxy.rs:142-144 | binary, ping and pong messages forward nothing and do not stop the direction |
| LspProxy.StopMessage | src-tauri/src/lsp_proxy.rs:138-148 | a Close or a read error ends the direction; nothing after it is forwarded |
| LspProxy.TextMessage | src-tauri/src/lsp_proxy.rs:122-137 | a text message is forwarded before everything after it |
| LspProxy.AllWritten | src-tauri/src/lsp_proxy.rs:116-152 | when every write goes through, all the frames are written and the direction succeeds |
| LspProxy.FailsAt | src-tauri/src/lsp_proxy.rs:131-135 | the first failed write decides the error and which frames reached the server |
| LspProxy.FirstRefused | src-tauri/src/lsp_proxy.rs:167-171 | the first refused send; every send before it goes through, and None means all do |
| LspProxy.Relayed | src-tauri/src/lsp_proxy.rs:159-181 | the messages read one after the other until the first failed read; `RelayedStep`, `NothingRelayed` and `RelayRoundTrip` state its properties |
| LspProxy.SendOutcome | src-tauri/src/lsp_proxy.rs:167-171 | the messages delivered and the result for the given send outcomes; `ForwardLspToWs` is stated through it |
| LspProxy.ForwardLspToWs | src-tauri/src/lsp_proxy.rs:155-185 | sends every message read from the server, in order, until the first failed read, which ends the direction normally; a refused send ends it with "Failed to send to WebSocket" |
| LspProxy.NothingRelayed | src-tauri/src/lsp_proxy.rs:174-181 | a stream whose first read fails relays nothing |
| LspProxy.RelayedStep | src-tauri/src/lsp_proxy.rs:159-173 | a message read is relayed first, then what follows it |
| LspProxy.AllDelivered | src-tauri/src/lsp_proxy.rs:155-185 | when every send goes through, all messages reach the editor |
| LspProxy.RefusedAt | src-tauri/src/lsp_proxy.rs:167-171 | when a send is refused, only the messages before it reach the editor |
| LspProxy.EmptyStreamRelaysNothing | src-tauri/src/lsp_proxy.rs:174-181 | a server that sends nothing relays nothing |
| LspProxy.RelayRoundTrip | src-tauri/src/lsp_proxy.rs:116-226 | relaying the frames one direction writes gives back exactly the texts, in order |
| LspProxy.ServerReadsEditorTexts | src-tauri/src/lsp_proxy.rs:116-226 | when every write goes through, the server reads back exactly the editor's text messages up to the close, unchanged and in order |
| LspProxy.PreviewAsWritten | src-tauri/src/lsp_proxy.rs:124 | the logged preview, when it does not panic, is a prefix of the message of `min(len, 200)` bytes |
| LspProxy.PreviewAsWrittenPanics | src-tauri/src/lsp_proxy.rs:124 | the preview panics whenever a character's bytes straddle byte 200 |
| LspProxy.AccentAtByte199Panics | src-tauri/src/lsp_proxy.rs:164 | 199 ASCII characters followed by `é` make the preview panic |
| LspProxy.PrefixWithin | src-tauri/src/lsp_proxy.rs:124 | the longest prefix whose bytes fit the budget: it fits, and the next character would not |
| LspProxy.Preview | src-tauri/src/lsp_proxy.rs:164 | the corrected preview is a prefix of at most 200 bytes that cannot be extended by a character, and it never panics |
| LspProxy.PrefixWithinFits | src-tauri/src/lsp_proxy.rs:124 | a message within 200 bytes is shown whole |
| LspProxy.PrefixWithinExact | src-tauri/src/lsp_proxy.rs:124 | a prefix that fills the budget exactly is what is shown |
| LspProxy.PreviewAgrees | src-tauri/src/lsp_proxy.rs:124 | wherever the original preview does not panic, the corrected one shows the same text |
| Json.Get | src-tauri/src/mcp_client.rs:76 | `get(key)` finds a value exactly for an object holding the key |
| Json.Index | src-tauri/src/mcp_client.rs:179 | `value[key]` is the field, or Null when `get` finds nothing |
| Json.ArrayField | src-tauri/src/mcp_client.rs:192-193 | an array field's items, found exactly when the field is an array |
| McpClient.RequestIds | src-tauri/src/mcp_client.rs:59-87 | the requests carry the id they were built with; the notification carries none |
| McpClient.Response | src-tauri/src/mcp_client.rs:111-119 | the next reply line, parsed, or `ParseFailed` with the line; the empty line once the subprocess has answered everything |
| McpClient.InitializeOutcome | src-tauri/src/mcp_client.rs:73-91 | a failed request, an answer with an `error` member (`InitFailed`), or success; `Client.Initialize` is stated through it |
| McpClient.UcmOutput | src-tauri/src/mcp_client.rs:236-298 | `parse_ucm_output` as a specification function; `ParseUcmOutput` is proved equal to it, and `ErrorsWin`, `JsonOutputIsNeverEmpty` and `NonJsonOutput` state its outcomes |
| McpClient.UpdateOutcome | src-tauri/src/mcp_client.rs:175-220 | how the answer to the tool call is classified; `UpdateSuccessIff`, `FlaggedResultFails`, `ErrorAnswer` and `MissingResultAnswer` state its outcomes |
| McpClient.ErrorTexts | src-tauri/src/mcp_client.rs:243-251 | the collected errors are non-empty strings of the array, no more than its items |
| McpClient.OutputTexts | src-tauri/src/mcp_client.rs:254-266 | the collected messages are strings of the array, none of them noise |
| McpClient.ParseUcmOutput | src-tauri/src/mcp_client.rs:236-298 | the source's loops compute exactly `UcmOutput` |
| McpClient.ErrorTextsComplete | src-tauri/src/mcp_client.rs:243-251 | every non-empty string of `errorMessages` is among the errors |
| McpClient.OutputTextsComplete | src-tauri/src/mcp_client.rs:254-266 | every string of `outputMessages` that is not noise is among the messages |
| McpClient.NoiseDropped | src-tauri/src/mcp_client.rs:258-261 | no empty line, loading notice or bare "Done." reaches the messages |
| McpClient.JsonOutputIsNeverEmpty | src-tauri/src/mcp_client.rs:276-289 | output that parses as JSON always gives the editor a non-empty text |
| McpClient.ErrorsWin | src-tauri/src/mcp_client.rs:277-279 | when the output names errors, the output is those errors one per line, and they are returned as they are |
| McpClient.NonJsonOutput | src-tauri/src/mcp_client.rs:290-297 | output that is not JSON is shown as it is, and is the single error exactly when flagged |
| McpClient.UpdateSuccessIff | src-tauri/src/mcp_client.rs:175-220 | a save succeeds exactly when the answer has no `error`, its `result` is not flagged, and the output names no error; a success carries no errors |
| McpClient.FlaggedResultFails | src-tauri/src/mcp_client.rs:188-210 | a result flagged `isError` is never a success |
| McpClient.ErrorAnswer | src-tauri/src/mcp_client.rs:175-184 | an `error` answer is a failed save with empty output and one error: its message, or "Unknown error" |
| McpClient.MissingResultAnswer | src-tauri/src/mcp_client.rs:218-220 | an answer with neither `error` nor `result` is the error "Invalid MCP response: missing result" |
| McpClient.UpdatedNoteNumber | src-tauri/src/mcp_client.rs:269-274 | "Updated 1 definition" for one, and a plural otherwise |
| McpClient.Client.constructor | src-tauri/src/mcp_client.rs:43-49 | a new client has request id 1, is not initialized, and has sent nothing |
| McpClient.Client.NextId | src-tauri/src/mcp_client.rs:95-97 | returns the current id, and the counter moves on by one modulo 2^64 |
| McpClient.Client.SendRequest | src-tauri/src/mcp_client.rs:100-119 | writes the request, consumes one answer line and returns it parsed, or the line that failed to parse |
| McpClient.Client.SendNotification | src-tauri/src/mcp_client.rs:122-129 | writes the notification and reads nothing |
| McpClient.Client.Initialize | src-tauri/src/mcp_client.rs:58-92 | sends initialize under the next id. It opens the gate and sends the initialized notification exactly when the answer parses and holds no `error` |
| McpClient.Client.CallTool | src-tauri/src/mcp_client.rs:132-148 | before initialization, fails with "MCP client not initialized" and sends nothing; afterwards, sends a tools/call under the next id and returns the answer |
| McpClient.Client.UpdateDefinitions | src-tauri/src/mcp_client.rs:154-221 | calls update-definitions with the project context and code, and classifies the answer by `UpdateOutcome`; when initialized it consumes one reply line and advances the request id by one, wrapping at 2^64, and otherwise changes nothing |
| McpClient.Client.Close | src-tauri/src/mcp_client.rs:224-233 | kills the subprocess and changes nothing else |
| McpClient.Spawn | src-tauri/src/mcp_client.rs:31-55 | fails exactly when initialization fails, with its error; otherwise the client is initialized, has sent initialize with id 1 and the notification, the next id is 2, it keeps the parse function, and the reply to `initialize` is consumed |
| FileWatcher.WrappingSub | src-tauri/src/file_watcher.rs:96 | `now_ms - last_time` in wrapping `u64` arithmetic |
| FileWatcher.ChangeType | src-tauri/src/file_watcher.rs:77-84 | removes are "deleted", creates and modifies are "modified", and every other kind is ignored |
| FileWatcher.Deliver | src-tauri/src/file_watcher.rs:89-122 | every delivered event is for a watched path of the event, with its change type and `now`; the recorded paths are the old ones plus the delivered ones |
| FileWatcher.Manager.constructor | src-tauri/src/file_watcher.rs:38-45 | nothing watched, no times, not initialized |
| FileWatcher.Manager.Initialize | src-tauri/src/file_watcher.rs:48-133 | a second call succeeds and changes nothing. The first stores the handle, and creates the watcher or fails with "Failed to create file watcher" |
| FileWatcher.Manager.WatchFile | src-tauri/src/file_watcher.rs:136-159 | a watched path is left alone. A new path enters the set first, then the watcher; the error is "not initialized" or a watch failure, and either leaves the path in the set |
| FileWatcher.Manager.UnwatchFile | src-tauri/src/file_watcher.rs:162-187 | always succeeds; a watched path leaves the set, its time is forgotten, and the watcher stops polling it |
| FileWatcher.Manager.GetWatchedFiles | src-tauri/src/file_watcher.rs:191-197 | every watched path exactly once |
| FileWatcher.Manager.OnEvent | src-tauri/src/file_watcher.rs:68-125 | ignored kinds change nothing; otherwise the times and the delivered events are `Deliver`'s |
| FileWatcher.WatchedIn | src-tauri/src/file_watcher.rs:91 | the watched paths of an event, no more than its paths |
| FileWatcher.DeletesAreNeverDebounced | src-tauri/src/file_watcher.rs:94 | a delete delivers one event per watched path it names, in order, whatever the recorded times |
| FileWatcher.UnwatchedPathsAreIgnored | src-tauri/src/file_watcher.rs:91 | an event naming no watched path delivers nothing and records nothing |
| FileWatcher.OnePathEvent | src-tauri/src/file_watcher.rs:94-108 | a change less than 100 ms after the path's last event is skipped and keeps its time; otherwise it is delivered and `now` is recorded |
| FileWatcher.DeliveredTimesAreNow | src-tauri/src/file_watcher.rs:102 | every delivered path has `now` as its recorded time |
| FileWatcher.ClockBackwardsIsNotDebounced | src-tauri/src/file_watcher.rs:96 | a clock that went back by up to 2^64 - 100 ms is not debounced, because the subtraction wraps |
| Commands.CheckTraversal | src-tauri/src/commands.rs:240-242 | refuses exactly the paths containing `..`, with the path in the message; a path that passes is unchanged |
| Commands.TraversalIffDoubleDot | src-tauri/src/commands.rs:240-242 | refused exactly when two dots stand side by side, for example in `notes..txt` |
| Commands.ParentStepRefused | src-tauri/src/commands.rs:240-242 | a `/../` step anywhere is refused with "Path traversal not allowed: " and the path |
| Commands.ListDirectoryImpl | src-tauri/src/commands.rs:333-396 | the recursive loop computes exactly `List`: the depth check, the read failures, the filtered nodes, the children and the sort |
| Commands.List | src-tauri/src/commands.rs:333-396 | `list_directory_impl` as a function of the tree: `DepthExceeded` past depth 50, the first read failure in entry order, or the sorted nodes; `ListingShows`, `ListingOrder`, `HiddenAndLinksNotShown`, `FlatListingWithinDepth` and `TooDeepFails` state its properties |
| Commands.Collect | src-tauri/src/commands.rs:346-383 | the unsorted nodes of the entries from one index on, or the first failure among them; `CollectShows`, `CollectShownAt` and `CollectFailsAt` state its properties |
| Commands.CollectFailsAt | src-tauri/src/commands.rs:348-352 | a failure at an entry is the failure of the whole listing, whatever was collected before it |
| Commands.CollectShownAt | src-tauri/src/commands.rs:358-383 | a shown entry puts its node, with children only for a directory of a recursive listing, in front of what the later entries give |
| Commands.Insert | src-tauri/src/commands.rs:387-393 | inserting keeps every node and adds one |
| Commands.SortNodes | src-tauri/src/commands.rs:387-393 | the sort is a permutation |
| Commands.BeforeStrict | src-tauri/src/commands.rs:387-393 | the comparator is irreflexive, transitive and asymmetric |
| Commands.Before | src-tauri/src/commands.rs:387-393 | the comparator: directories before files, then names in the order of their lower case; `BeforeStrict` proves it a strict order |
| Commands.Lower | src-tauri/src/commands.rs:391 | ASCII lower case of one character (see Left out) |
| Commands.InsertSorted | src-tauri/src/commands.rs:387-393 | inserting into a sorted list keeps it sorted |
| Commands.SortedBehind | src-tauri/src/commands.rs:387-393 | a sorted sequence of the other nodes, none of which comes before the head, stays sorted behind the head |
| Commands.SortNodesSorted | src-tauri/src/commands.rs:387-393 | the sorted nodes are in the comparator's order |
| Commands.ListingOrder | src-tauri/src/commands.rs:386-393 | a listing puts every directory before every file, and within each group orders names by their lower case |
| Commands.CollectShows | src-tauri/src/commands.rs:346-383 | the unsorted nodes are the shown entries, in order; a node has children exactly when it is a directory and the listing is recursive |
| Commands.ListingShows | src-tauri/src/commands.rs:346-393 | a listing shows each readable, non-hidden, non-symlink entry exactly once and nothing else, with children by the same rule |
| Commands.HiddenAndLinksNotShown | src-tauri/src/commands.rs:358-368 | no hidden entry and no symbolic link becomes a node |
| Commands.FlatListingWithinDepth | src-tauri/src/commands.rs:335-341 | a listing that does not recurse, started within depth 50, never fails for depth |
| Commands.TooDeepFails | src-tauri/src/commands.rs:335-341 | deeper than 50 levels fails with the path |
| Commands.LspConnection.constructor | src-tauri/src/commands.rs:633-639 | no stream is held |
| Commands.LspConnection.Connect | src-tauri/src/commands.rs:641-656 | a refused connection fails with "Failed to connect to LSP server at host:port" and keeps the old stream; an accepted one replaces it |
| Commands.LspConnection.Disconnect | src-tauri/src/commands.rs:658-665 | drops the stream and always succeeds |
| Commands.LspConnection.SendRequest | src-tauri/src/commands.rs:667-737 | without a stream it fails; otherwise it writes the frame of the message, flushes, and returns the one message read back, or the failing step |
| Commands.FramedAnswer | src-tauri/src/commands.rs:704-737 | a server answering with one framed message gives that message's text, and leaves the rest unread |
| Commands.AppState.constructor | src-tauri/src/commands.rs:27-39 | no session, ports 5858, 5757 and 5758, no HTTP client, no proxy |
| Commands.AppState.UcmPtySpawn | src-tauri/src/commands.rs:748-816 | a running session is kept and the stored ports are returned. Otherwise a new session is spawned; when no API port is free from 5858 the result is "Could not find available port for UCM API server", and a failed start returns its own error unchanged; the new session starts running with no context, an empty buffer, no events and nothing written; only when a proxy port is found from 5758 are the ports stored, the HTTP client repointed and the proxy started |
| Commands.AppState.UcmPtyKill | src-tauri/src/commands.rs:878-891 | stops and forgets the session, and always succeeds |
| Commands.AppState.UcmPtyWrite | src-tauri/src/commands.rs:818-830 | fails with "UCM PTY not spawned" without a session; otherwise it is the session's `write` of the data's bytes, and the session's reader state and events stay as they were |
| Commands.AppState.UcmPtySwitchContext | src-tauri/src/commands.rs:860-874 | fails with "UCM PTY not spawned" without a session; otherwise it writes the switch command, and the session's reader state and events stay as they were |
| Commands.AppState.UcmPtyGetContext | src-tauri/src/commands.rs:847-858 | fails with "UCM PTY not spawned" without a session; otherwise it returns the session's context |
| Commands.AppState.GetServicePorts | src-tauri/src/commands.rs:904-912 | the three stored ports: 5858, 5757 and 5758 until `UcmPtySpawn` sets them |

## Left out

- Sockets, pipes, the pseudo-terminal and the file system are not modelled as such. Their answers are inputs: probes, streams given in advance, and success flags.
- Event emission to the front end is a log. Concurrency is not modelled: the reader thread, the two relay tasks and their `tokio::select!` teardown in `handle_connection` (lsp_proxy.rs:63-113), and the mutexes.
- Logging is left out, except the relay's message preview, which can panic (see Findings).
- `resize` (ucm_pty.rs:309-319) and `ucm_pty_resize` are left out: they only pass the size to the OS.
- The environment and the PATH setup of `spawn` (ucm_pty.rs:70-195) are left out. Every failure to start the process is one `startError`.
- The HTTP pass-through commands (commands.rs:41-227) are left out. They forward to the UCM API client, and `ucm_api.rs` is not part of this model.
- The canonicalisation and workspace check of `validate_path` (commands.rs:243-283) need the file system. Only the `..` check is modelled.
- `read_file`, `write_file`, `create_file`, `delete_file`, `rename_file` and `file_exists` are left out: they are thin wrappers over the file system.
- The other MCP commands (`switch_project_branch`, `ucm_typecheck`, `ucm_run_tests`, `ucm_run`, `view_definitions`; commands.rs:473-627) call `MCPClient` methods whose source is not part of this model.
- The lazy `MCPClient::spawn` of `ucm_update` (commands.rs:494-513) is covered by `McpClient.Spawn` and `Client.UpdateDefinitions`. The command-layer `mcp_client` slot is not modelled.
- McpClient.Client.SendRequest: failures to write or flush stdin and to read stdout are not modelled. The reply queue stands for stdout, with the empty string once it is exhausted.
- McpClient.Client.SendNotification: a failure to write or flush stdin (mcp_client.rs:124-128) is not modelled. The notification is always sent.
- McpClient.Client.Initialize: never fails when sending the `initialized` notification (mcp_client.rs:88), because `SendNotification` does not model that failure.
- McpClient.Spawn: a failure to start `ucm mcp` or to take its pipes is not modelled.
- Operating-system error texts appended to messages are not modelled. Errors are datatype constructors that name the fixed text.
- Json: numbers are integers. Serialising a value to text and `serde_json::from_str` are a parse function given as a parameter.
- FileWatcher.Manager.GetWatchedFiles: the order of the result is the set's own, unspecified, as with the source's `HashSet`.
- FileWatcher.WrappingSub: models a release build. A debug build panics on the subtraction when the clock goes back.
- FileWatcher.Manager.OnEvent: the callback's `Err` branch (file_watcher.rs:124) only logs, and is not modelled. The path's lossy UTF-8 conversion is the identity, since paths are strings here.
- FileWatcher.Manager.Initialize: when creating the watcher fails, the handle stays stored. Later calls then succeed without a watcher. This is modelled as written.
- PortUtils.FindAvailablePort: requires `start + 100` to fit in a `u16`, as the source's addition does. Overflow there panics in a debug build and wraps in release; neither is modelled.
- PortUtils.FindAvailablePorts: requires `start + 100` to fit in a `u16` (port_utils.rs:19), for the same reason as `FindAvailablePort`. A start that overflows panics in a debug build and scans nothing in release; neither is modelled.
- Commands.Lower: is ASCII lower case. Rust's `to_lowercase` is full Unicode. Names compare by code point, as Rust's `String` order does.
- Commands.SortNodes: is a stable insertion sort. The stability of `sort_by` is not stated as a property.
- Commands.LspConnection.SendRequest: a partial write is not modelled. After a failed read, the rest of the stream is dropped from the model.
- Commands.AppState.UcmPtySpawn: when no proxy port is found, the new session stays stored with the old ports. A later call then returns those stale ports. This is modelled as written.
- UcmPty.TrimBuffer: the trim panic at a non-boundary is modelled as written. The reader thread dies and `running` stays true.
- LspFraming.ReadBody: the body buffer is allocated with `vec![0u8; content_length]` before anything is read (lsp_proxy.rs:220, commands.rs:733). A length above `isize::MAX` panics with "capacity overflow", and a length too large for memory aborts the process. Neither is modelled: a length the stream cannot fill is `BodyEof`, a clean error.
- FileWatcher.Manager.WatchFile: paths are compared as strings. The source keys its set and map by `PathBuf`, whose equality compares components, so `a/b/`, `a//b` and `a/./b` are the same path as `a/b` there. In the model, watching `a/b/` and then unwatching `a/b` leaves `a/b/` watched.
- FileWatcher.Manager.UnwatchFile: compares paths as strings, for the same reason as `WatchFile`.
- UcmPty.UcmPtyManager.Write: a failed `write_all` may have written a prefix of the data. The model writes nothing on a failed write.
- LspProxy.ForwardWsToLsp: a failed `write_all` may have put a prefix of the frame on the server. The model counts that frame as not written.
- `get_ports` (ucm_pty.rs:281-283) is unused. Its value is the manager's `ports` field.

## Findings

| source | as written | input that shows it | evidently intended | confidence | as-written member | corrected member |
|---|---|---|---|---|---|---|
| src-tauri/src/lsp_proxy.rs:124 | `&text[..text.len().min(200)]` cuts the logged preview at byte 200, which need not be a character boundary. The same cut of `content` is at lsp_proxy.rs:164. Info logging is on in every build (lib.rs:18), so the cut always runs | a message of 199 ASCII characters followed by `é`, whose two bytes are 199 and 200 | cut at the last character boundary at or before byte 200. As written, the panic ends that direction's task before the message is forwarded, so the message and all later ones are lost | high; not executed | LspProxy.PreviewAsWrittenPanics | LspProxy.Preview |

`LspProxy.AccentAtByte199Panics` exhibits the input. `LspProxy.PreviewAgrees` proves that the corrected preview shows the same text wherever the original does not panic. The relay methods `ForwardWsToLsp` and `ForwardLspToWs` follow the corrected behaviour: logging never stops a message from being forwarded.
