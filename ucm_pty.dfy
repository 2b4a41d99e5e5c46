/**
 * The terminal session with the tool (src-tauri/src/ucm_pty.rs): the shared `running` flag
 * and current context, the reader thread's line buffer, and the commands written to the
 * terminal. One turn of the reader loop is `ReadOnce`, specified by `ReaderStep`; the events
 * emitted to the front end are recorded in order in `events`.
 */
module UcmPty {
  import opened Wrappers
  import opened Text
  import opened Utf8
  import opened UcmPrompt
  import opened PortUtils

  /** The text the tool prints when another instance holds the codebase. */
  const LockSentinel := "Failed to obtain a file lock"

  /** A line buffer longer than this many bytes is cut down ... */
  const TrimThreshold: nat := 1024

  /** ... to this many trailing bytes. */
  const TrimKeep: nat := 512

  /** The size of the reader's byte buffer: no read returns more. */
  const ReadBufferSize: nat := 4096

  /** The first port tried for the tool's HTTP API. */
  const ApiPortSearchStart: Port := 5858

  /** The language-server port the tool always uses. */
  const UcmLspPort: Port := 5757

  /** The error `spawn` returns when no API port is free. */
  const ApiPortError := "Could not find available port for UCM API server"

  /** `UCMPorts`. */
  datatype UcmPorts = UcmPorts(apiPort: Port, lspPort: Port)

  /** The events emitted to the front end. */
  datatype PtyEvent =
    | Output(bytes: seq<Byte>)              // "ucm-pty-output"
    | ContextChanged(context: UcmContext)   // "ucm-context-changed"
    | FileLockError                         // "ucm-file-lock-error"

  /** What one read of the terminal returns; `Chunk([])` is end of stream. */
  datatype ReadResult = Chunk(bytes: seq<Byte>) | ReadError

  predicate FitsReadBuffer(r: ReadResult) {
    r.Chunk? ==> |r.bytes| <= ReadBufferSize
  }

  /** Whether the reader loop goes on, has left the loop, or has died in a panic. */
  datatype LoopStatus = Reading | Exited | Panicked

  /** The state one turn of the reader loop works on. */
  datatype ReaderState = ReaderState(running: bool, context: UcmContext, buffer: string, status: LoopStatus)

  /** The state after one turn and the events it emitted, in order. */
  datatype Step = Step(state: ReaderState, events: seq<PtyEvent>)

  /** The parsed prompt and its event, when it differs from the stored context. */
  function DetectContext(stored: UcmContext, buffer: string): (UcmContext, seq<PtyEvent>) {
    match ParseUcmPrompt(buffer)
    case None => (stored, [])
    case Some(found) =>
      if found.project != stored.project || found.branch != stored.branch
      then (found, [ContextChanged(found)])
      else (stored, [])
  }

  /**
   * Keeps the last 512 bytes of a buffer longer than 1024 bytes. The cut is a byte index,
   * so None stands for the panic when it falls inside a character.
   */
  function TrimBuffer(buffer: string): Option<string> {
    var len := ByteLen(buffer);
    if len > TrimThreshold then SliceFromByte(buffer, len - TrimKeep) else Some(buffer)
  }

  /** A buffer that survives the trim holds at most 1024 bytes; a cut one holds exactly its last 512. */
  lemma TrimmedIsBounded(buffer: string)
    ensures TrimBuffer(buffer).Some? ==> ByteLen(TrimBuffer(buffer).value) <= TrimThreshold
    ensures ByteLen(buffer) > TrimThreshold && TrimBuffer(buffer).Some?
            ==> ByteLen(TrimBuffer(buffer).value) == TrimKeep
  {
  }

  /** One turn of the reader loop. */
  function ReaderStep(s: ReaderState, r: ReadResult): Step
    requires s.status == Reading
  {
    if !s.running then Step(s.(status := Exited), [])
    else match r
      case ReadError => Step(s.(status := Exited), [])
      case Chunk(bytes) =>
        if bytes == [] then Step(s.(status := Exited), [])
        else match Decode(bytes)
          case None => Step(s, [Output(bytes)])
          case Some(text) => TextStep(s, bytes, text)
  }

  /** The rest of a turn whose chunk decoded to `text`. */
  function TextStep(s: ReaderState, bytes: seq<Byte>, text: string): Step {
    var buffer := s.buffer + text;
    if Contains(buffer, LockSentinel)
    then Step(ReaderState(false, s.context, buffer, Exited), [Output(bytes), FileLockError])
    else
      var (context, changed) := DetectContext(s.context, buffer);
      match TrimBuffer(buffer)
      case None => Step(ReaderState(true, context, buffer, Panicked), [Output(bytes)] + changed)
      case Some(kept) => Step(ReaderState(true, context, kept, Reading), [Output(bytes)] + changed)
  }

  /** `UCMPtyManager`, together with its reader thread's line buffer. */
  class UcmPtyManager {
    var running: bool
    var context: UcmContext
    var lineBuffer: string
    var reader: LoopStatus
    /** Everything emitted to the front end, in order. */
    var events: seq<PtyEvent>
    /** Everything written to the terminal's input, in order. */
    var written: seq<Byte>
    const ports: UcmPorts

    function Reader(): ReaderState
      reads this
    {
      ReaderState(running, context, lineBuffer, reader)
    }

    /** While the reader runs, its buffer holds at most 1024 bytes. */
    ghost predicate Valid()
      reads this
    {
      reader == Reading ==> ByteLen(lineBuffer) <= TrimThreshold
    }

    /** The state right after the tool was started: running, no context yet. */
    constructor (ports: UcmPorts)
      ensures Valid()
      ensures running && context == NoContext && lineBuffer == [] && reader == Reading
      ensures events == [] && written == [] && this.ports == ports
    {
      running := true;
      context := NoContext;
      lineBuffer := [];
      reader := Reading;
      events := [];
      written := [];
      this.ports := ports;
    }

    /** One turn of the reader loop (src-tauri/src/ucm_pty.rs, the body of the loop). */
    method ReadOnce(r: ReadResult)
      requires reader == Reading && FitsReadBuffer(r) && Valid()
      modifies this
      ensures Reader() == ReaderStep(old(Reader()), r).state
      ensures events == old(events) + ReaderStep(old(Reader()), r).events
      ensures written == old(written)
      ensures Valid()
    {
      ghost var before := Reader();
      ghost var logged := events;
      ghost var step := ReaderStep(before, r);
      if !running || r.ReadError? || r.bytes == [] {
        reader := Exited;
        return;
      }
      var bytes := r.bytes;
      events := events + [Output(bytes)];
      var decoded := Decode(bytes);
      if decoded.None? {
        return;
      }
      assert step == TextStep(before, bytes, decoded.value);
      lineBuffer := lineBuffer + decoded.value;
      if Contains(lineBuffer, LockSentinel) {
        running := false;
        RegroupEvents(logged, [Output(bytes)], [FileLockError]);
        events := events + [FileLockError];
        reader := Exited;
        return;
      }
      ghost var detected := DetectContext(before.context, lineBuffer);
      var found := ParseUcmPrompt(lineBuffer);
      if found.Some? && (found.value.project != context.project || found.value.branch != context.branch) {
        context := found.value;
        RegroupEvents(logged, [Output(bytes)], [ContextChanged(found.value)]);
        events := events + [ContextChanged(found.value)];
      } else {
        assert [Output(bytes)] + [] == [Output(bytes)];
      }
      assert context == detected.0 && events == logged + ([Output(bytes)] + detected.1);
      var trimmed := TrimBuffer(lineBuffer);
      TrimmedIsBounded(lineBuffer);
      if trimmed.None? {
        reader := Panicked;
      } else {
        lineBuffer := trimmed.value;
      }
    }

    /** `write`: the bytes go to the terminal unless the write fails; a failed flush is reported after. */
    method Write(data: seq<Byte>, writeError: Option<string>, flushError: Option<string>)
      returns (r: Result<(), string>)
      modifies this
      ensures Reader() == old(Reader()) && events == old(events)
      ensures written == old(written) + (if writeError.None? then data else [])
      ensures r == WriteOutcome(writeError, flushError)
    {
      if writeError.Some? {
        return Err("Failed to write to PTY: " + writeError.value);
      }
      written := written + data;
      if flushError.Some? {
        return Err("Failed to flush PTY: " + flushError.value);
      }
      return Ok(());
    }

    /** `switch_context`: writes the tool's `switch` command for the project and branch. */
    method SwitchContext(project: string, branch: string, writeError: Option<string>, flushError: Option<string>)
      returns (r: Result<(), string>)
      modifies this
      ensures Reader() == old(Reader()) && events == old(events)
      ensures written == old(written) + (if writeError.None? then SwitchCommand(project, branch) else [])
      ensures r == WriteOutcome(writeError, flushError)
    {
      r := Write(SwitchCommand(project, branch), writeError, flushError);
    }

    /** `get_context`. */
    function GetContext(): UcmContext
      reads this
    {
      context
    }

    /** `is_running`: the shared flag, which only `Stop` and the lock sentinel clear. */
    function IsRunning(): bool
      reads this
    {
      running
    }

    /** `stop`: asks the reader loop to leave at its next turn. */
    method Stop()
      modifies this
      ensures !running
      ensures context == old(context) && lineBuffer == old(lineBuffer) && reader == old(reader)
      ensures events == old(events) && written == old(written)
    {
      running := false;
    }

    /** Dropping the manager stops it. */
    method Drop()
      modifies this
      ensures !running
      ensures context == old(context) && lineBuffer == old(lineBuffer) && reader == old(reader)
      ensures events == old(events) && written == old(written)
    {
      Stop();
    }
  }

  lemma RegroupEvents(a: seq<PtyEvent>, b: seq<PtyEvent>, c: seq<PtyEvent>)
    ensures a + (b + c) == (a + b) + c
  {
  }

  /** The result `write` reports for the given failures. */
  function WriteOutcome(writeError: Option<string>, flushError: Option<string>): Result<(), string> {
    if writeError.Some? then Err("Failed to write to PTY: " + writeError.value)
    else if flushError.Some? then Err("Failed to flush PTY: " + flushError.value)
    else Ok(())
  }

  /** The bytes `switch_context` writes. */
  function SwitchCommand(project: string, branch: string): seq<Byte> {
    Encode("switch " + project + "/" + branch + "\n")
  }

  /**
   * `spawn`, as far as the ports go: the API port is the first free one from 5858, the
   * language-server port is always 5757. Every failure of starting the process is `startError`.
   */
  method Spawn(free: Port -> bool, startError: Option<string>) returns (r: Result<UcmPtyManager, string>)
    ensures FindAvailablePort(free, ApiPortSearchStart).None?
            ==> r == Err(ApiPortError)
    ensures FindAvailablePort(free, ApiPortSearchStart).Some? && startError.Some? ==> r == Err(startError.value)
    ensures r.Ok? <==> FindAvailablePort(free, ApiPortSearchStart).Some? && startError.None?
    ensures r.Ok? ==> fresh(r.value) && r.value.Valid()
    ensures r.Ok? ==> r.value.ports == UcmPorts(FindAvailablePort(free, ApiPortSearchStart).value, UcmLspPort)
    ensures r.Ok? ==> r.value.Reader() == ReaderState(true, NoContext, [], Reading)
    ensures r.Ok? ==> r.value.events == [] && r.value.written == []
  {
    var apiPort := FindAvailablePort(free, ApiPortSearchStart);
    if apiPort.None? {
      return Err(ApiPortError);
    }
    if startError.Some? {
      return Err(startError.value);
    }
    var manager := new UcmPtyManager(UcmPorts(apiPort.value, UcmLspPort));
    return Ok(manager);
  }

  /** Every chunk read is emitted first, as it was read, and only once; at most one more event follows. */
  lemma OutputComesFirst(s: ReaderState, bytes: seq<Byte>)
    requires s.status == Reading && s.running && bytes != []
    ensures var events := ReaderStep(s, Chunk(bytes)).events;
            1 <= |events| <= 2 && events[0] == Output(bytes)
            && forall i :: 1 <= i < |events| ==> !events[i].Output?
  {
  }

  /** A chunk that is not UTF-8 is shown but never reaches the line buffer. */
  lemma InvalidUtf8IsNotBuffered(s: ReaderState, bytes: seq<Byte>)
    requires s.status == Reading && s.running && bytes != [] && Decode(bytes).None?
    ensures ReaderStep(s, Chunk(bytes)) == Step(s, [Output(bytes)])
  {
  }

  /**
   * Once the buffer holds the lock-failure text, the loop clears `running`, reports the lock
   * error after the output, and ends without looking for a prompt.
   */
  lemma LockSentinelStopsReader(s: ReaderState, bytes: seq<Byte>, text: string)
    requires s.status == Reading && s.running && bytes != [] && Decode(bytes) == Some(text)
    requires Contains(s.buffer + text, LockSentinel)
    ensures var t := ReaderStep(s, Chunk(bytes));
            !t.state.running && t.state.status == Exited && t.state.context == s.context
            && t.events == [Output(bytes), FileLockError]
  {
  }

  /**
   * End of stream and read errors only end the loop: `running` keeps its value, so
   * `is_running` still reports true after the tool exited on its own.
   */
  lemma EndOfStreamKeepsRunning(s: ReaderState, r: ReadResult)
    requires s.status == Reading && (r == ReadError || r == Chunk([]))
    ensures ReaderStep(s, r) == Step(s.(status := Exited), [])
    ensures ReaderStep(s, r).state.running == s.running
  {
  }

  /** After `stop`, the next turn leaves the loop whatever the read would have returned. */
  lemma StoppedReaderExits(s: ReaderState, r: ReadResult)
    requires s.status == Reading && !s.running
    ensures ReaderStep(s, r) == Step(s.(status := Exited), [])
  {
  }

  /** Context detection replaces the stored context only by a different, parsed one, and reports it. */
  lemma DetectOnlyChanges(stored: UcmContext, buffer: string)
    ensures var (context, changed) := DetectContext(stored, buffer);
            (context == stored ==> changed == [])
            && (context != stored ==> changed == [ContextChanged(context)]
                                      && ParseUcmPrompt(buffer) == Some(context))
  {
  }

  /**
   * The stored context changes exactly when a context-changed event is emitted, and that event
   * carries the new context; no turn emits two.
   */
  lemma ContextEventOnlyOnChange(s: ReaderState, r: ReadResult)
    requires s.status == Reading
    ensures var t := ReaderStep(s, r);
            (t.state.context == s.context ==> forall i :: 0 <= i < |t.events| ==> !t.events[i].ContextChanged?)
            && (t.state.context != s.context ==> r.Chunk? && t.events == [Output(r.bytes), ContextChanged(t.state.context)])
  {
    if s.running && r.Chunk? && r.bytes != [] && Decode(r.bytes).Some? {
      var text := Decode(r.bytes).value;
      assert ReaderStep(s, r) == TextStep(s, r.bytes, text);
      TextStepContextEvents(s, r.bytes, text);
    }
  }

  /** The same for the rest of a turn whose chunk decoded to `text`. */
  lemma TextStepContextEvents(s: ReaderState, bytes: seq<Byte>, text: string)
    ensures var t := TextStep(s, bytes, text);
            (t.state.context == s.context ==> forall i :: 0 <= i < |t.events| ==> !t.events[i].ContextChanged?)
            && (t.state.context != s.context ==> t.events == [Output(bytes), ContextChanged(t.state.context)])
  {
    var buffer := s.buffer + text;
    if !Contains(buffer, LockSentinel) {
      DetectOnlyChanges(s.context, buffer);
    }
  }

  /** A running reader keeps its buffer within 1024 bytes. */
  lemma BufferStaysBounded(s: ReaderState, r: ReadResult)
    requires s.status == Reading && ByteLen(s.buffer) <= TrimThreshold
    ensures var t := ReaderStep(s, r).state;
            t.status == Reading ==> ByteLen(t.buffer) <= TrimThreshold
  {
    if s.running && r.Chunk? && r.bytes != [] && Decode(r.bytes).Some? {
      TrimmedIsBounded(s.buffer + Decode(r.bytes).value);
    }
  }

  /** A buffer over 1024 bytes is cut to the text of its last 512 bytes. */
  lemma TrimKeepsTail(buffer: string)
    requires ByteLen(buffer) > TrimThreshold && TrimBuffer(buffer).Some?
    ensures var kept := TrimBuffer(buffer).value;
            ByteLen(kept) == TrimKeep && exists k :: 0 <= k <= |buffer| && kept == buffer[k..]
  {
  }

  /** What survives the trim is a suffix of the buffer. */
  lemma TrimIsSuffix(buffer: string)
    requires TrimBuffer(buffer).Some?
    ensures var kept := TrimBuffer(buffer).value;
            |kept| <= |buffer| && kept == buffer[|buffer| - |kept|..]
  {
    if ByteLen(buffer) <= TrimThreshold {
      assert buffer[0..] == buffer;
    }
  }

  /** A suffix of `s`. */
  predicate IsSuffix(t: string, s: string) {
    |t| <= |s| && t == s[|s| - |t|..]
  }

  /** What survives the trim of a non-empty buffer ends with the buffer's last character. */
  lemma TrimKeepsLastChar(buffer: string)
    requires buffer != [] && TrimBuffer(buffer).Some?
    ensures var kept := TrimBuffer(buffer).value;
            IsSuffix(kept, buffer) && kept != [] && kept[|kept| - 1] == buffer[|buffer| - 1]
  {
    TrimIsSuffix(buffer);
    var kept := TrimBuffer(buffer).value;
    if ByteLen(buffer) > TrimThreshold {
      TrimKeepsTail(buffer);
      assert kept != [];
    }
  }

  /** A turn that goes on keeps the trimmed buffer. */
  lemma TextStepReadingKeepsTrimmed(s: ReaderState, bytes: seq<Byte>, text: string)
    ensures TextStep(s, bytes, text).state.status == Reading
            ==> TrimBuffer(s.buffer + text).Some? && TextStep(s, bytes, text).state.buffer == TrimBuffer(s.buffer + text).value
  {
    if TextStep(s, bytes, text).state.status == Reading {
      TextStepKeepsTrimmed(s, bytes, text);
    }
  }


  lemma TextStepKeepsTrimmed(s: ReaderState, bytes: seq<Byte>, text: string)
    requires TextStep(s, bytes, text).state.status == Reading
    ensures TrimBuffer(s.buffer + text).Some?
    ensures TextStep(s, bytes, text).state.buffer == TrimBuffer(s.buffer + text).value
  {
  }

  /** The rest of a turn whose text completes a prompt line stores the prompt's context. */
  lemma PromptTextStep(s: ReaderState, bytes: seq<Byte>, text: string, context: UcmContext)
    requires s.running
    requires !Contains(s.buffer + text, LockSentinel) && ParseUcmPrompt(s.buffer + text) == Some(context)
    ensures var t := TextStep(s, bytes, text);
            t.state.context == context && t.state.status != Exited && t.state.running
            && (s.context == context ==> t.events == [Output(bytes)])
            && (s.context != context ==> t.events == [Output(bytes), ContextChanged(context)])
  {
    TextStepUnlocked(s, bytes, text);
    DetectFound(s.context, s.buffer + text, context);
  }

  /** Without the lock-failure text, a turn keeps running, emits the output and then what detection found. */
  lemma TextStepUnlocked(s: ReaderState, bytes: seq<Byte>, text: string)
    requires !Contains(s.buffer + text, LockSentinel)
    ensures var detected := DetectContext(s.context, s.buffer + text);
            var t := TextStep(s, bytes, text);
            t.state.running && t.state.context == detected.0 && t.state.status != Exited
            && t.events == [Output(bytes)] + detected.1
  {
  }

  /** A parsed prompt becomes the context, with an event exactly when it differs from the stored one. */
  lemma DetectFound(stored: UcmContext, buffer: string, context: UcmContext)
    requires ParseUcmPrompt(buffer) == Some(context)
    ensures DetectContext(stored, buffer) == (context, if stored == context then [] else [ContextChanged(context)])
  {
  }

  /** A chunk that completes a prompt in the buffer stores that prompt's context. */
  lemma ChunkStoresContext(s: ReaderState, text: string, context: UcmContext)
    requires s.status == Reading && s.running && text != []
    requires !Contains(s.buffer + text, LockSentinel) && ParseUcmPrompt(s.buffer + text) == Some(context)
    ensures var t := ReaderStep(s, Chunk(Encode(text)));
            t.state.context == context && t.state.status != Exited && t.state.running
            && (s.context == context ==> t.events == [Output(Encode(text))])
            && (s.context != context ==> t.events == [Output(Encode(text)), ContextChanged(context)])
  {
    ChunkOfTextIsTextStep(s, text);
    PromptTextStep(s, Encode(text), text, context);
  }

  /** After a chunk that ends a line, a buffer that goes on still ends at a line break. */
  lemma LineChunkKeepsLineEnd(s: ReaderState, text: string)
    requires s.status == Reading && s.running && text != [] && text[|text| - 1] == '\n'
    ensures var t := ReaderStep(s, Chunk(Encode(text))).state;
            t.status == Reading ==> t.buffer != [] && t.buffer[|t.buffer| - 1] == '\n'
                                    && IsSuffix(t.buffer, s.buffer + text)
  {
    ChunkOfTextIsTextStep(s, text);
    LineTextStepKeepsLineEnd(s, Encode(text), text);
  }

  lemma LineTextStepKeepsLineEnd(s: ReaderState, bytes: seq<Byte>, text: string)
    requires text != [] && text[|text| - 1] == '\n'
    ensures var t := TextStep(s, bytes, text).state;
            t.status == Reading ==> t.buffer != [] && t.buffer[|t.buffer| - 1] == '\n'
                                    && IsSuffix(t.buffer, s.buffer + text)
  {
    var buffer := s.buffer + text;
    assert buffer[|buffer| - 1] == '\n';
    TextStepReadingKeepsTrimmed(s, bytes, text);
    if TrimBuffer(buffer).Some? {
      TrimKeepsLastChar(buffer);
    }
  }

  /** A running reader handles a chunk that encodes a non-empty text by the text step. */
  lemma ChunkOfTextIsTextStep(s: ReaderState, text: string)
    requires s.status == Reading && s.running && text != []
    ensures ReaderStep(s, Chunk(Encode(text))) == TextStep(s, Encode(text), text)
  {
    DecodeEncode(text);
    assert Encode(text) == EncodeChar(text[0]) + Encode(text[1..]);
  }

  /**
   * A chunk holding one full prompt line, read while the buffer ends at a line break, stores
   * that prompt's context; the event is emitted only if the context was different.
   */
  lemma PromptLineSetsContext(s: ReaderState, project: string, branch: string, path: Option<string>)
    requires s.status == Reading && s.running
    requires s.buffer == [] || s.buffer[|s.buffer| - 1] == '\n'
    requires IsProjectName(project) && IsBranchName(branch) && (path.Some? ==> '\n' !in path.value)
    requires !Contains(s.buffer + (PromptText(project, branch, path) + "\n"), LockSentinel)
    ensures var line := PromptText(project, branch, path) + "\n";
            var t := ReaderStep(s, Chunk(Encode(line)));
            var context := UcmContext(Some(project), Some(branch));
            && t.state.context == context && t.state.status != Exited && t.state.running
            && (t.state.status == Reading ==> t.state.buffer != [] && t.state.buffer[|t.state.buffer| - 1] == '\n'
                                              && IsSuffix(t.state.buffer, s.buffer + line))
            && (s.context == context ==> t.events == [Output(Encode(line))])
            && (s.context != context ==> t.events == [Output(Encode(line)), ContextChanged(context)])
  {
    var line := PromptText(project, branch, path) + "\n";
    assert s.buffer + line == s.buffer + PromptText(project, branch, path) + "\n";
    TerminatedPromptRoundTrip(s.buffer, project, branch, path);
    ChunkStoresContext(s, line, UcmContext(Some(project), Some(branch)));
    LineChunkKeepsLineEnd(s, line);
  }

  /**
   * Reading the same full prompt line twice emits at most one context-changed event: the
   * second read finds the context already stored.
   */
  lemma RepeatedPromptLineEmitsOnce(s: ReaderState, project: string, branch: string, path: Option<string>)
    requires s.status == Reading && s.running
    requires s.buffer == [] || s.buffer[|s.buffer| - 1] == '\n'
    requires IsProjectName(project) && IsBranchName(branch) && (path.Some? ==> '\n' !in path.value)
    requires var line := PromptText(project, branch, path) + "\n";
             !Contains(s.buffer + line + line, LockSentinel)
             && ReaderStep(s, Chunk(Encode(line))).state.status == Reading
    ensures var chunk := Chunk(Encode(PromptText(project, branch, path) + "\n"));
            var first := ReaderStep(s, chunk);
            var second := ReaderStep(first.state, chunk);
            second.state.context == first.state.context
            && forall i :: 0 <= i < |second.events| ==> !second.events[i].ContextChanged?
  {
    var line := PromptText(project, branch, path) + "\n";
    var once := s.buffer + line;
    var all := once + line;
    assert all[..|once|] == once;
    NotContainedInPrefix(all, |once|, LockSentinel);
    PromptLineSetsContext(s, project, branch, path);
    var first := ReaderStep(s, Chunk(Encode(line)));
    var k := |once| - |first.state.buffer|;
    SuffixThenLine(first.state.buffer, once, line);
    NotContainedInSuffix(all, k, LockSentinel);
    PromptLineSetsContext(first.state, project, branch, path);
    var second := ReaderStep(first.state, Chunk(Encode(line)));
    assert second.events == [Output(Encode(line))];
  }

  /** A suffix of `x` followed by `line` is a suffix of `x` followed by `line`. */
  lemma SuffixThenLine(t: string, x: string, line: string)
    requires IsSuffix(t, x)
    ensures t + line == (x + line)[|x| - |t|..]
  {
  }

  lemma NotContainedInPrefix(s: string, k: nat, sub: string)
    requires k <= |s| && !Contains(s, sub)
    ensures !Contains(s[..k], sub)
  {
    if Contains(s[..k], sub) {
      ContainsInPrefix(s, k, sub);
    }
  }

  lemma NotContainedInSuffix(s: string, k: nat, sub: string)
    requires k <= |s| && !Contains(s, sub)
    ensures !Contains(s[k..], sub)
  {
    if Contains(s[k..], sub) {
      ContainsInSuffix(s, k, sub);
    }
  }

  /** A turn whose buffer stays within 1024 bytes keeps the whole buffer and goes on. */
  lemma ShortTextStep(s: ReaderState, bytes: seq<Byte>, text: string)
    requires !Contains(s.buffer + text, LockSentinel) && ByteLen(s.buffer + text) <= TrimThreshold
    ensures TextStep(s, bytes, text).state.buffer == s.buffer + text
    ensures TextStep(s, bytes, text).state.status == Reading
  {
  }

  /**
   * Two reads of the same text emit a context-changed event each when the buffer shows a new
   * context after each read.
   */
  lemma TwoContextEvents(s: ReaderState, text: string, first: UcmContext, second: UcmContext)
    requires s.status == Reading && s.running && text != [] && s.context != first && first != second
    requires !Contains(s.buffer + text, LockSentinel) && !Contains(s.buffer + text + text, LockSentinel)
    requires ByteLen(s.buffer + text) <= TrimThreshold
    requires ParseUcmPrompt(s.buffer + text) == Some(first)
    requires ParseUcmPrompt(s.buffer + text + text) == Some(second)
    ensures var once := ReaderStep(s, Chunk(Encode(text)));
            && once.events == [Output(Encode(text)), ContextChanged(first)]
            && once.state.status == Reading
            && ReaderStep(once.state, Chunk(Encode(text))).events
               == [Output(Encode(text)), ContextChanged(second)]
  {
    ChunkStoresContext(s, text, first);
    ChunkOfTextIsTextStep(s, text);
    ShortTextStep(s, Encode(text), text);
    ChunkStoresContext(ReaderStep(s, Chunk(Encode(text))).state, text, second);
  }

  /**
   * The trim panics when its cut lands inside a multi-byte character: the byte length less 512
   * falls strictly between the start and the end of that character's bytes.
   */
  lemma TrimPanicsInsideChar(before: string, c: char, after: string)
    requires var len := ByteLen(before + [c] + after);
             len > TrimThreshold && ByteLen(before) < len - TrimKeep < ByteLen(before) + |EncodeChar(c)|
    ensures TrimBuffer(before + [c] + after) == None
  {
    var len := ByteLen(before + [c] + after);
    InsideCharIsNoBoundary(before, c, after, len - TrimKeep - ByteLen(before));
  }

  /** Runs of 'a' take one byte per character. */
  lemma RepeatByteLen(n: nat)
    ensures ByteLen(Repeat('a', n)) == n
  {
    EncodeAscii(Repeat('a', n));
  }

  /**
   * A concrete buffer whose trim panics: 512 bytes of 'a', the two-byte 'é', 511 bytes of 'a'.
   * It holds 1025 bytes and the cut at byte 513 falls between the two bytes of 'é'.
   */
  lemma TrimCanPanic()
    ensures TrimBuffer(Repeat('a', 512) + ['\U{E9}'] + Repeat('a', 511)) == None
  {
    RepeatByteLen(512);
    RepeatByteLen(511);
    ByteLenAppend(Repeat('a', 512), ['\U{E9}']);
    ByteLenAppend(Repeat('a', 512) + ['\U{E9}'], Repeat('a', 511));
    assert |EncodeChar('\U{E9}')| == 2;
    TrimPanicsInsideChar(Repeat('a', 512), '\U{E9}', Repeat('a', 511));
  }

  /**
   * When the trim panics the reader thread dies with no lock error: the events of the turn are
   * still emitted, but the manager keeps reporting itself as running.
   */
  lemma TrimPanicLeavesRunning(s: ReaderState, bytes: seq<Byte>, text: string)
    requires !Contains(s.buffer + text, LockSentinel) && TrimBuffer(s.buffer + text).None?
    ensures var step := TextStep(s, bytes, text);
            && step.state.status == Panicked && step.state.running
            && step.events == [Output(bytes)] + DetectContext(s.context, s.buffer + text).1
  {
  }

  /** The switch command is one line of text. */
  lemma SwitchCommandIsOneLine(project: string, branch: string)
    requires IsProjectName(project) && IsBranchName(branch)
    ensures Decode(SwitchCommand(project, branch)) == Some("switch " + project + "/" + branch + "\n")
    ensures Lines("switch " + project + "/" + branch + "\n") == ["switch " + project + "/" + branch]
  {
    DecodeEncode("switch " + project + "/" + branch + "\n");
    assert '\n' !in project && '\n' !in branch;
    assert ("switch " + project + "/" + branch)[|"switch " + project + "/" + branch| - 1] == branch[|branch| - 1];
    LinesOfTerminatedLine("switch " + project + "/" + branch);
  }

  /**
   * The argument of the switch command names the context the way the prompt does: split at
   * its last '/', it gives back the project and the branch.
   */
  lemma SwitchCommandNamesContext(project: string, branch: string)
    requires IsProjectName(project) && IsBranchName(branch)
    ensures var line := "switch " + project + "/" + branch;
            line[..7] == "switch " && SplitContext(line[7..]) == Some(UcmContext(Some(project), Some(branch)))
  {
    var context := project + "/" + branch;
    var line := "switch " + project + "/" + branch;
    assert line == "switch " + context;
    assert line[7..] == context;
    SplitsAtLastSlash(project, branch);
  }

  /** A prompt followed by another project name reads as a project name with a space in it. */
  lemma GluedProjectHasSpace(project: string, branch: string, next: string)
    requires IsProjectName(project) && IsBranchName(branch) && IsProjectName(next)
    ensures var glued := PromptText(project, branch, None) + next;
            glued != [] && IsTrimmed(glued) && ' ' in glued && ':' !in glued
  {
    var prompt := PromptText(project, branch, None);
    var glued := prompt + next;
    assert prompt == project + "/" + branch + "> ";
    assert glued[|prompt| - 1] == ' ';
    assert glued[0] == project[0];
    assert glued[|glued| - 1] == next[|next| - 1];
    assert ':' !in project && ':' !in branch && ':' !in next;
  }

  /** Two prompts in a row, split at the second one's last '/'. */
  lemma GluedPromptsSplit(project: string, branch: string, next: string, nextBranch: string)
    ensures var prompt := PromptText(project, branch, None);
            prompt + PromptText(next, nextBranch, None) == (prompt + next) + "/" + nextBranch + "> "
  {
  }

  /** A prompt glued to the end of another prompt is no prompt: its project part holds "> ". */
  lemma GluedPromptsAreNoPrompt(project: string, branch: string, next: string, nextBranch: string)
    requires IsProjectName(project) && IsBranchName(branch)
    requires IsProjectName(next) && IsBranchName(nextBranch)
    ensures ParsePromptLine(PromptText(project, branch, None) + PromptText(next, nextBranch, None)) == None
  {
    GluedProjectHasSpace(project, branch, next);
    assert ':' !in nextBranch;
    PromptWithSpaceIsNoPrompt(PromptText(project, branch, None) + next, nextBranch);
    GluedPromptsSplit(project, branch, next, nextBranch);
  }

  /** A prompt printed after the end of an unfinished line is read as one prompt with a longer project. */
  lemma PromptAfterPartialText(partial: string, project: string, branch: string)
    ensures partial + PromptText(project, branch, None) == PromptText(partial + project, branch, None)
  {
  }

  /** Regrouping the buffer after a read: the complete line, its break, and the unfinished rest. */
  lemma RegroupLines(first: string, partial: string, more: string)
    ensures first + "\n" + partial + more == first + "\n" + (partial + more)
  {
  }

  /** The same regrouping after two reads. */
  lemma RegroupLinesTwice(first: string, partial: string, more: string, again: string)
    ensures first + "\n" + partial + more + again == first + "\n" + (partial + more + again)
  {
  }

  /**
   * The context the reader finds after a complete prompt line and an unfinished line `tail`:
   * the unfinished line's, when it parses, and otherwise the complete one's.
   */
  lemma SecondLineDecides(first: string, tail: string)
    requires '\n' !in first && first != [] && first[|first| - 1] == ' '
    requires tail != [] && '\n' !in tail
    ensures ParseUcmPrompt(first + "\n" + tail)
            == if ParsePromptLine(tail).Some? then ParsePromptLine(tail) else ParsePromptLine(first)
  {
    LinesOfTwo(first, tail);
    assert [first, tail] == [first] + [tail];
    if ParsePromptLine(tail).Some? {
      ScanLinesLast([first], tail, ParsePromptLine);
    } else {
      ScanLinesSkipsLast([first], tail, ParsePromptLine);
      assert [first] == [] + [first];
      if ParsePromptLine(first).Some? {
        ScanLinesLast([], first, ParsePromptLine);
      }
    }
  }

  /**
   * Reading the same prompt twice can emit two context-changed events when the prompt does
   * not start a line. Say the buffer holds a prompt for `other` and then an unfinished line
   * `partial`. The first read joins the prompt to `partial`, giving a new context; the second
   * read spoils that line, and the scan falls back to the earlier prompt for `other`.
   */
  lemma RepeatedPromptAfterPartialLine(other: UcmContext, partial: string, project: string, branch: string)
    requires other.project.Some? && other.branch.Some?
    requires IsProjectName(other.project.value) && IsBranchName(other.branch.value)
    requires IsProjectName(partial + project) && IsBranchName(branch) && IsProjectName(project)
    requires other != UcmContext(Some(partial + project), Some(branch))
    requires var before := PromptText(other.project.value, other.branch.value, None) + "\n" + partial;
             var prompt := PromptText(project, branch, None);
             !Contains(before + prompt + prompt, LockSentinel)
             && ByteLen(before + prompt) <= TrimThreshold
    ensures var s := ReaderState(true, other, PromptText(other.project.value, other.branch.value, None) + "\n" + partial, Reading);
            var chunk := Chunk(Encode(PromptText(project, branch, None)));
            var once := ReaderStep(s, chunk);
            && once.events == [Output(chunk.bytes), ContextChanged(UcmContext(Some(partial + project), Some(branch)))]
            && once.state.status == Reading
            && ReaderStep(once.state, chunk).events == [Output(chunk.bytes), ContextChanged(other)]
  {
    var first := PromptText(other.project.value, other.branch.value, None);
    var prompt := PromptText(project, branch, None);
    var s := ReaderState(true, other, first + "\n" + partial, Reading);
    PromptJoinsPartialLine(other, partial, project, branch);
    DoubledPromptFallsBack(other, partial, project, branch);
    assert (s.buffer + prompt + prompt)[..|s.buffer + prompt|] == s.buffer + prompt;
    if Contains(s.buffer + prompt, LockSentinel) {
      ContainsInPrefix(s.buffer + prompt + prompt, |s.buffer + prompt|, LockSentinel);
    }
    TwoContextEvents(s, prompt, UcmContext(Some(partial + project), Some(branch)), other);
  }

  /** A prompt read after an unfinished line joins it: the prompt's project gains that line as a prefix. */
  lemma PromptJoinsPartialLine(other: UcmContext, partial: string, project: string, branch: string)
    requires other.project.Some? && other.branch.Some?
    requires IsProjectName(other.project.value) && IsBranchName(other.branch.value)
    requires IsProjectName(partial + project) && IsBranchName(branch)
    ensures var first := PromptText(other.project.value, other.branch.value, None);
            ParseUcmPrompt(first + "\n" + partial + PromptText(project, branch, None))
            == Some(UcmContext(Some(partial + project), Some(branch)))
  {
    var first := PromptText(other.project.value, other.branch.value, None);
    PromptTextOneLine(other.project.value, other.branch.value, None);
    PromptLineParses(partial + project, branch, None);
    PromptTextOneLine(partial + project, branch, None);
    RegroupLines(first, partial, PromptText(project, branch, None));
    PromptAfterPartialText(partial, project, branch);
    SecondLineDecides(first, PromptText(partial + project, branch, None));
  }

  /** Reading the prompt once more spoils the joined line, and the earlier prompt decides. */
  lemma DoubledPromptFallsBack(other: UcmContext, partial: string, project: string, branch: string)
    requires other.project.Some? && other.branch.Some?
    requires IsProjectName(other.project.value) && IsBranchName(other.branch.value)
    requires IsProjectName(partial + project) && IsBranchName(branch) && IsProjectName(project)
    ensures var first := PromptText(other.project.value, other.branch.value, None);
            var prompt := PromptText(project, branch, None);
            ParseUcmPrompt(first + "\n" + partial + prompt + prompt) == Some(other)
  {
    var first := PromptText(other.project.value, other.branch.value, None);
    var prompt := PromptText(project, branch, None);
    var joined := PromptText(partial + project, branch, None);
    PromptLineParses(other.project.value, other.branch.value, None);
    PromptTextOneLine(other.project.value, other.branch.value, None);
    PromptTextOneLine(partial + project, branch, None);
    PromptTextOneLine(project, branch, None);
    GluedPromptsAreNoPrompt(partial + project, branch, project, branch);
    RegroupLinesTwice(first, partial, prompt, prompt);
    PromptAfterPartialText(partial, project, branch);
    SecondLineDecides(first, joined + prompt);
  }
}
