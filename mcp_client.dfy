/**
 * The client for `ucm mcp` (src-tauri/src/mcp_client.rs): JSON-RPC 2.0 over the subprocess's
 * stdin and stdout, one JSON value per line. The subprocess is replaced by the lines it will
 * answer with, in order, and `serde_json::from_str` by a parse function given to the client.
 */
module McpClient {
  import opened Wrappers
  import opened Text
  import opened Json

  /** `UpdateResult`: what saving definitions reports to the editor. */
  datatype UpdateResult = UpdateResult(success: bool, output: string, errors: seq<string>)

  /**
   * Why a client call fails. `ParseFailed` carries the line that did not parse and
   * `InitFailed` the `message` member of the `error` the server answered `initialize` with.
   */
  datatype McpError =
    | NotInitialized
    | ParseFailed(line: string)
    | InitFailed(message: Json)
    | MissingResult

  const NotInitializedText: string := "MCP client not initialized"
  const MissingResultText: string := "Invalid MCP response: missing result"

  /** The text of the errors whose wording does not depend on the server's answer. */
  function ErrorText(e: McpError): Option<string> {
    match e
    case NotInitialized => Some(NotInitializedText)
    case MissingResult => Some(MissingResultText)
    case _ => None
  }

  /** The request id is an `AtomicU64`; `fetch_add` wraps around at this value. */
  const U64Limit: nat := 0x1_0000_0000_0000_0000

  const UnknownError: string := "Unknown error"
  const UpdateFailed: string := "Update failed"
  const Saved: string := "Saved to codebase"
  const LoadingNotice: string := "Loading changes detected"

  // ---------------------------------------------------------------------------------------
  // Messages sent to the subprocess

  function InitializeRequest(id: nat): Json {
    Object(map[
      "jsonrpc" := Str("2.0"),
      "id" := Number(id),
      "method" := Str("initialize"),
      "params" := Object(map[
        "protocolVersion" := Str("2024-11-05"),
        "capabilities" := Object(map[]),
        "clientInfo" := Object(map["name" := Str("unison-editor"), "version" := Str("0.1.0")])])])
  }

  const InitializedNotification: Json :=
    Object(map["jsonrpc" := Str("2.0"), "method" := Str("notifications/initialized")])

  function ToolCall(id: nat, name: string, arguments: Json): Json {
    Object(map[
      "jsonrpc" := Str("2.0"),
      "id" := Number(id),
      "method" := Str("tools/call"),
      "params" := Object(map["name" := Str(name), "arguments" := arguments])])
  }

  /** The arguments of the "update-definitions" tool. */
  function UpdateArguments(code: string, project: string, branch: string): Json {
    Object(map[
      "projectContext" := Object(map["projectName" := Str(project), "branchName" := Str(branch)]),
      "code" := Object(map["text" := Str(code)])])
  }

  /** The id a request carries. */
  function RequestId(request: Json): Option<int> {
    match Get(request, "id")
    case Some(Number(n)) => Some(n)
    case _ => None
  }

  /** Requests carry the id they were built with; the notification carries none. */
  lemma RequestIds(id: nat, name: string, arguments: Json)
    ensures RequestId(InitializeRequest(id)) == Some(id)
    ensures RequestId(ToolCall(id, name, arguments)) == Some(id)
    ensures RequestId(InitializedNotification) == None
  {
  }

  // ---------------------------------------------------------------------------------------
  // Reading the subprocess's answers

  /**
   * `send_request`'s answer: the next line the subprocess writes (the empty string once it
   * has written everything), parsed.
   */
  function Response(replies: seq<string>, parse: string -> Option<Json>): Result<Json, McpError> {
    var line := if replies == [] then "" else replies[0];
    match parse(line)
    case None => Err(ParseFailed(line))
    case Some(j) => Ok(j)
  }

  /** What `initialize` reports once its request is answered. */
  function InitializeOutcome(replies: seq<string>, parse: string -> Option<Json>): Result<(), McpError> {
    match Response(replies, parse)
    case Err(e) => Err(e)
    case Ok(response) =>
      if Get(response, "error").Some? then Err(InitFailed(Index(Index(response, "error"), "message")))
      else Ok(())
  }

  // ---------------------------------------------------------------------------------------
  // Classifying the answer to "update-definitions"

  /** The non-empty strings of an `errorMessages` array, in order; other items are skipped. */
  function ErrorTexts(items: seq<Json>): (r: seq<string>)
    ensures |r| <= |items|
    ensures forall k :: 0 <= k < |r| ==> r[k] != [] && Str(r[k]) in items
  {
    if items == [] then []
    else
      var last := items[|items| - 1];
      ErrorTexts(items[..|items| - 1]) + (if last.Str? && last.s != [] then [last.s] else [])
  }

  /** Output lines that are noise: empty, a loading notice, or a bare "Done.". */
  predicate IsNoise(s: string) {
    s == [] || Contains(s, LoadingNotice) || s == "Done."
  }

  /** The strings of an `outputMessages` array that are not noise, in order. */
  function OutputTexts(items: seq<Json>): (r: seq<string>)
    ensures |r| <= |items|
    ensures forall k :: 0 <= k < |r| ==> !IsNoise(r[k]) && Str(r[k]) in items
  {
    if items == [] then []
    else
      var last := items[|items| - 1];
      OutputTexts(items[..|items| - 1]) + (if last.Str? && !IsNoise(last.s) then [last.s] else [])
  }

  /** The note for `n` updated definitions: "Updated n definition", plural unless n is 1. */
  function UpdatedNote(n: nat): string {
    "Updated " + Decimal(n) + " definition" + (if n == 1 then "" else "s")
  }

  /** The error strings of parsed output. */
  function ErrorsOf(json: Json): seq<string> {
    match ArrayField(json, "errorMessages")
    case Some(items) => ErrorTexts(items)
    case None => []
  }

  /** The messages of parsed output: its output lines, then the note on updated definitions. */
  function MessagesOf(json: Json): seq<string> {
    var lines := match ArrayField(json, "outputMessages")
      case Some(items) => OutputTexts(items)
      case None => [];
    match ArrayField(json, "sourceCodeUpdates")
    case Some(updates) => if updates != [] then lines + [UpdatedNote(|updates|)] else lines
    case None => lines
  }

  /** `parse_ucm_output` once the output parsed as JSON. */
  function JsonOutput(errors: seq<string>, messages: seq<string>, isError: bool): (string, seq<string>) {
    if errors != [] then (Join(errors, "\n"), errors)
    else if messages == [] then
      if isError then (UpdateFailed, [UpdateFailed]) else (Saved, [])
    else (Join(messages, ". "), [])
  }

  /** `parse_ucm_output`: the friendly output and the errors of the tool's raw output. */
  function UcmOutput(raw: string, isError: bool, parse: string -> Option<Json>): (string, seq<string>) {
    match parse(raw)
    case None => (raw, if isError then [raw] else [])
    case Some(json) => JsonOutput(ErrorsOf(json), MessagesOf(json), isError)
  }

  /** The `text` strings of a `content` array, in order; other items are skipped. */
  function ContentTexts(items: seq<Json>): seq<string> {
    if items == [] then []
    else (match AsStr(Index(items[0], "text")) case Some(t) => [t] case None => []) + ContentTexts(items[1..])
  }

  /** The raw output of a tool result: its `content` texts joined by newlines. */
  function RawOutput(result: Json): string {
    match ArrayField(result, "content")
    case Some(items) => Join(ContentTexts(items), "\n")
    case None => ""
  }

  /** The `isError` flag of a tool result, false when missing or not a boolean. */
  function IsErrorFlag(result: Json): bool {
    match Get(result, "isError")
    case Some(Bool(b)) => b
    case _ => false
  }

  /** How `update_definitions` reads the answer to its tool call. */
  function UpdateOutcome(response: Json, parse: string -> Option<Json>): Result<UpdateResult, McpError> {
    match Get(response, "error")
    case Some(error) =>
      var message := match AsStr(Index(error, "message")) case Some(m) => m case None => UnknownError;
      Ok(UpdateResult(false, "", [message]))
    case None =>
      match Get(response, "result")
      case None => Err(MissingResult)
      case Some(result) =>
        var isError := IsErrorFlag(result);
        var (output, errors) := UcmOutput(RawOutput(result), isError, parse);
        if isError || errors != [] then Ok(UpdateResult(false, output, errors))
        else Ok(UpdateResult(true, output, []))
  }

  // ---------------------------------------------------------------------------------------
  // parse_ucm_output, as the source computes it

  /**
   * `parse_ucm_output`: collects the error strings and the output messages with two loops,
   * then picks the output.
   */
  method ParseUcmOutput(raw: string, isError: bool, parse: string -> Option<Json>)
    returns (output: string, errors: seq<string>)
    ensures (output, errors) == UcmOutput(raw, isError, parse)
  {
    var parsed := parse(raw);
    if parsed.None? {
      if isError {
        return raw, [raw];
      }
      return raw, [];
    }
    var json := parsed.value;
    errors := [];
    var errorItems := ArrayField(json, "errorMessages");
    if errorItems.Some? {
      var items := errorItems.value;
      var i := 0;
      while i < |items|
        invariant i <= |items| && errors == ErrorTexts(items[..i])
      {
        var item := items[i];
        ErrorTextsStep(items, i);
        if item.Str? && item.s != [] {
          errors := errors + [item.s];
        }
        i := i + 1;
      }
      assert items[..i] == items;
    }
    var messages: seq<string> := [];
    var outputItems := ArrayField(json, "outputMessages");
    if outputItems.Some? {
      var items := outputItems.value;
      var i := 0;
      while i < |items|
        invariant i <= |items| && messages == OutputTexts(items[..i])
      {
        var item := items[i];
        OutputTextsStep(items, i);
        if item.Str? && !IsNoise(item.s) {
          messages := messages + [item.s];
        }
        i := i + 1;
      }
      assert items[..i] == items;
    }
    var updates := ArrayField(json, "sourceCodeUpdates");
    if updates.Some? && updates.value != [] {
      messages := messages + [UpdatedNote(|updates.value|)];
    }
    assert errors == ErrorsOf(json) && messages == MessagesOf(json);
    if errors != [] {
      return Join(errors, "\n"), errors;
    }
    if messages == [] {
      if isError {
        return UpdateFailed, [UpdateFailed];
      }
      return Saved, [];
    }
    return Join(messages, ". "), [];
  }

  lemma ErrorTextsStep(items: seq<Json>, i: nat)
    requires i < |items|
    ensures ErrorTexts(items[..i + 1])
            == ErrorTexts(items[..i]) + (if items[i].Str? && items[i].s != [] then [items[i].s] else [])
  {
    assert items[..i + 1][..i] == items[..i];
  }

  lemma OutputTextsStep(items: seq<Json>, i: nat)
    requires i < |items|
    ensures OutputTexts(items[..i + 1])
            == OutputTexts(items[..i]) + (if items[i].Str? && !IsNoise(items[i].s) then [items[i].s] else [])
  {
    assert items[..i + 1][..i] == items[..i];
  }

  /** Every non-empty string of the array is among the errors. */
  lemma {:induction false} ErrorTextsComplete(items: seq<Json>, i: nat)
    requires i < |items| && items[i].Str? && items[i].s != []
    ensures items[i].s in ErrorTexts(items)
  {
    if i < |items| - 1 {
      assert items[..|items| - 1][i] == items[i];
      ErrorTextsComplete(items[..|items| - 1], i);
    }
  }

  /** Every string of the array that is not noise is among the messages. */
  lemma {:induction false} OutputTextsComplete(items: seq<Json>, i: nat)
    requires i < |items| && items[i].Str? && !IsNoise(items[i].s)
    ensures items[i].s in OutputTexts(items)
  {
    if i < |items| - 1 {
      assert items[..|items| - 1][i] == items[i];
      OutputTextsComplete(items[..|items| - 1], i);
    }
  }

  /** Noise never reaches the messages: no empty line, no loading notice, no "Done.". */
  lemma NoiseDropped(items: seq<Json>, s: string)
    requires s in OutputTexts(items)
    ensures s != [] && s != "Done." && !Contains(s, LoadingNotice)
  {
  }

  /** Joined non-empty parts are not empty. */
  lemma JoinNotEmpty(parts: seq<string>, sep: string)
    requires parts != [] && parts[0] != []
    ensures Join(parts, sep) != []
  {
    if |parts| > 1 {
      assert Join(parts, sep)[0] == parts[0][0];
    }
  }

  /**
   * Output that parses as JSON always gives the editor something to show: the errors, the
   * messages, "Update failed" or "Saved to codebase", never the empty string.
   */
  lemma JsonOutputIsNeverEmpty(raw: string, isError: bool, parse: string -> Option<Json>)
    requires parse(raw).Some?
    ensures UcmOutput(raw, isError, parse).0 != []
  {
    var json := parse(raw).value;
    var errors, messages := ErrorsOf(json), MessagesOf(json);
    if errors != [] {
      JoinNotEmpty(errors, "\n");
    } else if messages != [] {
      var lines := match ArrayField(json, "outputMessages") case Some(items) => OutputTexts(items) case None => [];
      if lines != [] {
        assert messages[0] == lines[0];
      } else {
        assert messages[0][0] == 'U';
      }
      JoinNotEmpty(messages, ". ");
    }
  }

  /**
   * Errors win: when the JSON output names any error, the output is those errors, one per
   * line, and they are reported as they are.
   */
  lemma ErrorsWin(raw: string, isError: bool, parse: string -> Option<Json>)
    requires parse(raw).Some? && ErrorsOf(parse(raw).value) != []
    ensures UcmOutput(raw, isError, parse) == (Join(ErrorsOf(parse(raw).value), "\n"), ErrorsOf(parse(raw).value))
  {
  }

  /** Output that is not JSON is shown as it is, and is the one error exactly when flagged. */
  lemma NonJsonOutput(raw: string, isError: bool, parse: string -> Option<Json>)
    requires parse(raw).None?
    ensures UcmOutput(raw, isError, parse).0 == raw
    ensures UcmOutput(raw, isError, parse).1 == [raw] <==> isError
    ensures UcmOutput(raw, isError, parse).1 == [] <==> !isError
  {
  }

  /**
   * Saving succeeds exactly when the answer has no `error`, has a `result` not flagged
   * `isError`, and its output names no error; a success carries no errors.
   */
  lemma UpdateSuccessIff(response: Json, parse: string -> Option<Json>)
    ensures var r := UpdateOutcome(response, parse);
            r.Ok? && r.value.success
            <==> Get(response, "error").None? && Get(response, "result").Some?
                 && !IsErrorFlag(Get(response, "result").value)
                 && UcmOutput(RawOutput(Get(response, "result").value), false, parse).1 == []
    ensures var r := UpdateOutcome(response, parse);
            r.Ok? && r.value.success ==> r.value.errors == []
  {
  }

  /** A flagged result is never a success, whatever its output says. */
  lemma FlaggedResultFails(response: Json, parse: string -> Option<Json>)
    requires Get(response, "error").None? && Get(response, "result").Some?
    requires IsErrorFlag(Get(response, "result").value)
    ensures UpdateOutcome(response, parse).Ok? && !UpdateOutcome(response, parse).value.success
  {
  }

  /**
   * An `error` in the answer is reported as a failed save with empty output and one error:
   * the error's message, or "Unknown error" when it has no string message.
   */
  lemma ErrorAnswer(response: Json, parse: string -> Option<Json>)
    requires Get(response, "error").Some?
    ensures var r := UpdateOutcome(response, parse);
            r.Ok? && !r.value.success && r.value.output == [] && |r.value.errors| == 1
    ensures var e := Get(response, "error").value;
            UpdateOutcome(response, parse).value.errors[0]
            == if Get(e, "message").Some? && Get(e, "message").value.Str? then Get(e, "message").value.s else UnknownError
  {
  }

  /** An answer with neither `error` nor `result` is an error, not a failed save. */
  lemma MissingResultAnswer(response: Json, parse: string -> Option<Json>)
    requires Get(response, "error").None? && Get(response, "result").None?
    ensures UpdateOutcome(response, parse) == Err(MissingResult)
    ensures ErrorText(UpdateOutcome(response, parse).error) == Some("Invalid MCP response: missing result")
  {
  }

  /** The note is singular for one definition and plural otherwise. */
  lemma UpdatedNoteNumber(n: nat)
    ensures n == 1 ==> UpdatedNote(n) == "Updated 1 definition"
    ensures n != 1 ==> UpdatedNote(n)[|UpdatedNote(n)| - 1] == 's'
  {
  }

  // ---------------------------------------------------------------------------------------
  // The client

  /**
   * `MCPClient`: the request-id counter, the `initialized` gate and the subprocess. `replies`
   * are the lines the subprocess has still to write, `sent` every value written to its stdin,
   * `running` whether it has not been killed.
   */
  class Client {
    var requestId: nat
    var initialized: bool
    var running: bool
    var replies: seq<string>
    var sent: seq<Json>
    const parse: string -> Option<Json>

    predicate Valid()
      reads this
    {
      requestId < U64Limit
    }

    /** The client as `spawn` builds it, before `initialize`. */
    constructor (replies: seq<string>, parse: string -> Option<Json>)
      ensures Valid()
      ensures requestId == 1 && !initialized && running
      ensures this.replies == replies && sent == [] && this.parse == parse
    {
      requestId := 1;
      initialized := false;
      running := true;
      this.replies := replies;
      sent := [];
      this.parse := parse;
    }

    /** `next_id`: the current id; the counter moves on by one, wrapping like `fetch_add`. */
    method NextId() returns (id: nat)
      requires Valid()
      modifies this
      ensures Valid()
      ensures id == old(requestId) && requestId == (old(requestId) + 1) % U64Limit
      ensures old(requestId) + 1 < U64Limit ==> requestId == id + 1
      ensures initialized == old(initialized) && running == old(running)
      ensures replies == old(replies) && sent == old(sent)
    {
      id := requestId;
      requestId := (requestId + 1) % U64Limit;
    }

    /** `send_request`: writes the request as one line and parses the next line read back. */
    method SendRequest(request: Json) returns (r: Result<Json, McpError>)
      modifies this
      ensures r == Response(old(replies), parse)
      ensures sent == old(sent) + [request]
      ensures replies == if old(replies) == [] then [] else old(replies)[1..]
      ensures requestId == old(requestId) && initialized == old(initialized) && running == old(running)
    {
      sent := sent + [request];
      var line := "";
      if replies != [] {
        line := replies[0];
        replies := replies[1..];
      }
      var parsed := parse(line);
      if parsed.None? {
        return Err(ParseFailed(line));
      }
      return Ok(parsed.value);
    }

    /** `send_notification`: writes the notification as one line; nothing is read back. */
    method SendNotification(notification: Json)
      modifies this
      ensures sent == old(sent) + [notification]
      ensures replies == old(replies)
      ensures requestId == old(requestId) && initialized == old(initialized) && running == old(running)
    {
      sent := sent + [notification];
    }

    /**
     * `initialize`: sends the initialize request under the next id; unless the answer fails to
     * parse or carries an `error`, sends the initialized notification and opens the gate.
     */
    method Initialize() returns (r: Result<(), McpError>)
      requires Valid()
      modifies this
      ensures Valid()
      ensures r == InitializeOutcome(old(replies), parse)
      ensures sent == old(sent) + [InitializeRequest(old(requestId))] + (if r.Ok? then [InitializedNotification] else [])
      ensures initialized == (old(initialized) || r.Ok?)
      ensures requestId == (old(requestId) + 1) % U64Limit && running == old(running)
      ensures replies == if old(replies) == [] then [] else old(replies)[1..]
    {
      var id := NextId();
      var response := SendRequest(InitializeRequest(id));
      if response.Err? {
        return Err(response.error);
      }
      if Get(response.value, "error").Some? {
        return Err(InitFailed(Index(Index(response.value, "error"), "message")));
      }
      SendNotification(InitializedNotification);
      initialized := true;
      return Ok(());
    }

    /**
     * `call_tool`: refused without sending anything while the gate is closed; otherwise sends
     * a tools/call request under the next id and returns the parsed answer.
     */
    method CallTool(name: string, arguments: Json) returns (r: Result<Json, McpError>)
      requires Valid()
      modifies this
      ensures Valid()
      ensures !old(initialized) ==> r == Err(NotInitialized) && sent == old(sent) && replies == old(replies)
                                    && requestId == old(requestId)
      ensures old(initialized) ==> r == Response(old(replies), parse)
                                   && sent == old(sent) + [ToolCall(old(requestId), name, arguments)]
                                   && replies == (if old(replies) == [] then [] else old(replies)[1..])
                                   && requestId == (old(requestId) + 1) % U64Limit
      ensures initialized == old(initialized) && running == old(running)
    {
      if !initialized {
        return Err(NotInitialized);
      }
      var id := NextId();
      r := SendRequest(ToolCall(id, name, arguments));
    }

    /** `update_definitions`: calls the "update-definitions" tool and classifies its answer. */
    method UpdateDefinitions(code: string, project: string, branch: string) returns (r: Result<UpdateResult, McpError>)
      requires Valid()
      modifies this
      ensures Valid()
      ensures r == if !old(initialized) then Err(NotInitialized)
                   else match Response(old(replies), parse)
                     case Err(e) => Err(e)
                     case Ok(response) => UpdateOutcome(response, parse)
      ensures old(initialized) ==> sent == old(sent) + [ToolCall(old(requestId), "update-definitions", UpdateArguments(code, project, branch))]
      ensures !old(initialized) ==> sent == old(sent)
      ensures old(initialized) ==> replies == (if old(replies) == [] then [] else old(replies)[1..])
                                   && requestId == (old(requestId) + 1) % U64Limit
      ensures !old(initialized) ==> replies == old(replies) && requestId == old(requestId)
      ensures initialized == old(initialized) && running == old(running)
    {
      var response := CallTool("update-definitions", UpdateArguments(code, project, branch));
      if response.Err? {
        return Err(response.error);
      }
      var json := response.value;
      if Get(json, "error").Some? {
        var message := AsStr(Index(Index(json, "error"), "message"));
        return Ok(UpdateResult(false, "", [if message.Some? then message.value else UnknownError]));
      }
      var result := Get(json, "result");
      if result.None? {
        return Err(MissingResult);
      }
      var isError := IsErrorFlag(result.value);
      var output, errors := ParseUcmOutput(RawOutput(result.value), isError, parse);
      if isError || errors != [] {
        return Ok(UpdateResult(false, output, errors));
      }
      return Ok(UpdateResult(true, output, []));
    }

    /** `close` (also what `Drop` does): kills the subprocess. */
    method Close()
      modifies this
      ensures !running
      ensures requestId == old(requestId) && initialized == old(initialized)
      ensures replies == old(replies) && sent == old(sent)
    {
      running := false;
    }
  }

  /**
   * `spawn`: a new client, initialized. When `initialize` fails the client is dropped, which
   * kills the subprocess, and the error is returned.
   */
  method Spawn(replies: seq<string>, parse: string -> Option<Json>) returns (r: Result<Client, McpError>)
    ensures r.Err? <==> InitializeOutcome(replies, parse).Err?
    ensures r.Err? ==> r.error == InitializeOutcome(replies, parse).error
    ensures r.Ok? ==> fresh(r.value) && r.value.Valid() && r.value.initialized && r.value.running
    ensures r.Ok? ==> r.value.requestId == 2 && r.value.sent == [InitializeRequest(1), InitializedNotification]
    ensures r.Ok? ==> r.value.parse == parse && r.value.replies == (if replies == [] then [] else replies[1..])
  {
    var client := new Client(replies, parse);
    var init := client.Initialize();
    if init.Err? {
      client.Close();
      return Err(init.error);
    }
    return Ok(client);
  }
}
