/**
 * The two directions of the language-server relay (src-tauri/src/lsp_proxy.rs). The editor
 * talks JSON-RPC over a WebSocket, one JSON text per message; the language server talks the
 * same JSON over TCP with Content-Length framing. Each direction is modelled on its own, as a
 * loop over everything its source will deliver; the outcome of each write to the other side is
 * an input.
 */
module LspProxy {
  import opened Wrappers
  import opened Text
  import opened Utf8
  import opened LspFraming

  /** What one read of the WebSocket gives. */
  datatype WsRead =
    | Text(text: string)
    | Binary(data: seq<Byte>)
    | Ping(data: seq<Byte>)
    | Pong(data: seq<Byte>)
    | Close
    | ReadFailed

  /** How one framed write to the language server ends. */
  datatype SinkResult = Written | WriteFailed | FlushFailed

  const WriteError: string := "Failed to write to LSP"
  const FlushError: string := "Failed to flush LSP write"
  const SendError: string := "Failed to send to WebSocket"

  /**
   * The texts the WebSocket-to-server direction forwards: every Text message before the first
   * Close or failed read, in arrival order; Binary, Ping and Pong messages are skipped.
   */
  function ForwardedTexts(incoming: seq<WsRead>): (r: seq<string>)
    ensures |r| <= |incoming|
  {
    if incoming == [] then []
    else match incoming[0]
      case Text(t) => [t] + ForwardedTexts(incoming[1..])
      case Close => []
      case ReadFailed => []
      case _ => ForwardedTexts(incoming[1..])
  }

  /** One framed write per text, in order. */
  function FramesOf(texts: seq<string>): (r: seq<seq<Byte>>)
    ensures |r| == |texts| && forall i :: 0 <= i < |texts| ==> r[i] == Frame(texts[i])
  {
    if texts == [] then [] else [Frame(texts[0])] + FramesOf(texts[1..])
  }

  /** The bytes of a sequence of writes, one after the other. */
  function Concat(chunks: seq<seq<Byte>>): seq<Byte> {
    if chunks == [] then [] else chunks[0] + Concat(chunks[1..])
  }

  /** The first `n` writes all went through. */
  predicate WritesSucceed(sink: nat -> SinkResult, n: nat) {
    forall i :: 0 <= i < n ==> sink(i) == Written
  }

  /** The first of the writes `from` to `n - 1` that does not go through. */
  function FirstFailure(sink: nat -> SinkResult, from: nat, n: nat): (r: Option<nat>)
    requires from <= n
    ensures r.Some? ==> from <= r.value < n && sink(r.value) != Written
    ensures r.Some? ==> forall i :: from <= i < r.value ==> sink(i) == Written
    ensures r.None? <==> forall i :: from <= i < n ==> sink(i) == Written
    decreases n - from
  {
    if from == n then None
    else if sink(from) != Written then Some(from)
    else FirstFailure(sink, from + 1, n)
  }

  /**
   * What writing `texts` one frame at a time leaves on the server and reports: all the frames
   * and success, or the frames before the first failed write and its error. A failed flush
   * comes after its frame was written.
   */
  function WriteOutcome(texts: seq<string>, sink: nat -> SinkResult): (seq<seq<Byte>>, Result<(), string>) {
    match FirstFailure(sink, 0, |texts|)
    case None => (FramesOf(texts), Ok(()))
    case Some(k) =>
      if sink(k) == WriteFailed then (FramesOf(texts[..k]), Err(WriteError))
      else (FramesOf(texts[..k + 1]), Err(FlushError))
  }

  /**
   * `forward_ws_to_lsp`: frames each text message and writes it to the server; stops at a
   * Close, at a failed read or at the end of the stream, and returns an error when a write or
   * its flush fails. `sink(i)` is how the `i`-th write ends; `writes` is every write that reached
   * the server, in order.
   */
  method ForwardWsToLsp(incoming: seq<WsRead>, sink: nat -> SinkResult)
    returns (writes: seq<seq<Byte>>, r: Result<(), string>)
    ensures (writes, r) == WriteOutcome(ForwardedTexts(incoming), sink)
  {
    writes := [];
    ghost var done: seq<string> := [];
    var i := 0;
    while i < |incoming|
      invariant i <= |incoming| && NoStop(incoming[..i])
      invariant done == ForwardedTexts(incoming[..i])
      invariant writes == FramesOf(done)
      invariant WritesSucceed(sink, |writes|)
      decreases |incoming| - i
    {
      var message := incoming[i];
      if message.Close? || message.ReadFailed? {
        StopsAt(incoming, i);
        AllWritten(done, sink);
        return writes, Ok(());
      }
      if message.Text? {
        var outcome := sink(|writes|);
        if outcome != Written {
          PendingText(incoming, i);
          FailsAt(ForwardedTexts(incoming), sink, |writes|);
          if outcome == WriteFailed {
            return writes, Err(WriteError);
          }
          writes := writes + [Frame(message.text)];
          return writes, Err(FlushError);
        }
        TextStep(incoming, i);
        OneMoreWritten(sink, |writes|);
        FramesOfAppend(done, message.text);
        done := done + [message.text];
        writes := writes + [Frame(message.text)];
      } else {
        SkipStep(incoming, i);
      }
      i := i + 1;
    }
    assert incoming[..i] == incoming;
    AllWritten(done, sink);
    return writes, Ok(());
  }

  /** The frames of one more text, at the end. */
  lemma {:induction false} FramesOfAppend(texts: seq<string>, t: string)
    ensures FramesOf(texts + [t]) == FramesOf(texts) + [Frame(t)]
  {
    if texts != [] {
      assert (texts + [t])[1..] == texts[1..] + [t];
      FramesOfAppend(texts[1..], t);
    }
  }

  /** The frames of one more text. */
  lemma FramesOfSnoc(texts: seq<string>, k: nat)
    requires k < |texts|
    ensures FramesOf(texts[..k + 1]) == FramesOf(texts[..k]) + [Frame(texts[k])]
  {
    assert texts[..k + 1] == texts[..k] + [texts[k]];
    FramesOfAppend(texts[..k], texts[k]);
  }

  lemma OneMoreWritten(sink: nat -> SinkResult, n: nat)
    requires WritesSucceed(sink, n) && sink(n) == Written
    ensures WritesSucceed(sink, n + 1)
  {
  }

  /** When every write goes through, all frames are written and the direction succeeds. */
  lemma AllWritten(texts: seq<string>, sink: nat -> SinkResult)
    requires WritesSucceed(sink, |texts|)
    ensures WriteOutcome(texts, sink) == (FramesOf(texts), Ok(()))
  {
  }

  /** When write `k` is the first to fail, the frames before it (and its own, if only the flush failed) are written. */
  lemma FailsAt(texts: seq<string>, sink: nat -> SinkResult, k: nat)
    requires k < |texts| && WritesSucceed(sink, k) && sink(k) != Written
    ensures WriteOutcome(texts, sink)
            == if sink(k) == WriteFailed then (FramesOf(texts[..k]), Err(WriteError))
               else (FramesOf(texts[..k]) + [Frame(texts[k])], Err(FlushError))
  {
    assert FirstFailure(sink, 0, |texts|) == Some(k);
    FramesOfSnoc(texts, k);
  }

  /** No message of `s` stops the direction. */
  predicate NoStop(s: seq<WsRead>) {
    forall k :: 0 <= k < |s| ==> !s[k].Close? && !s[k].ReadFailed?
  }

  /** Forwarding a stream cut where nothing stops it: the texts of both parts. */
  lemma {:induction false} ForwardedAppend(a: seq<WsRead>, b: seq<WsRead>)
    requires NoStop(a)
    ensures ForwardedTexts(a + b) == ForwardedTexts(a) + ForwardedTexts(b)
  {
    if a != [] {
      assert (a + b)[1..] == a[1..] + b;
      ForwardedAppend(a[1..], b);
    } else {
      assert a + b == b;
    }
  }

  /** What is forwarded is what the part before `i` forwards and then what the rest does. */
  lemma SplitAt(incoming: seq<WsRead>, i: nat)
    requires i <= |incoming| && NoStop(incoming[..i])
    ensures ForwardedTexts(incoming) == ForwardedTexts(incoming[..i]) + ForwardedTexts(incoming[i..])
  {
    ForwardedAppend(incoming[..i], incoming[i..]);
    assert incoming[..i] + incoming[i..] == incoming;
  }

  /** Reading one more text message forwards it. */
  lemma TextStep(incoming: seq<WsRead>, i: nat)
    requires i < |incoming| && NoStop(incoming[..i]) && incoming[i].Text?
    ensures NoStop(incoming[..i + 1])
    ensures ForwardedTexts(incoming[..i + 1]) == ForwardedTexts(incoming[..i]) + [incoming[i].text]
  {
    assert incoming[..i + 1] == incoming[..i] + [incoming[i]];
    ForwardedAppend(incoming[..i], [incoming[i]]);
  }

  /** Reading one more Binary, Ping or Pong message forwards nothing. */
  lemma SkipStep(incoming: seq<WsRead>, i: nat)
    requires i < |incoming| && NoStop(incoming[..i])
    requires incoming[i].Binary? || incoming[i].Ping? || incoming[i].Pong?
    ensures NoStop(incoming[..i + 1])
    ensures ForwardedTexts(incoming[..i + 1]) == ForwardedTexts(incoming[..i])
  {
    assert incoming[..i + 1] == incoming[..i] + [incoming[i]];
    ForwardedAppend(incoming[..i], [incoming[i]]);
    assert ForwardedTexts([incoming[i]]) == [];
  }

  /** A Close or a failed read ends what is forwarded. */
  lemma StopsAt(incoming: seq<WsRead>, i: nat)
    requires i < |incoming| && NoStop(incoming[..i]) && (incoming[i].Close? || incoming[i].ReadFailed?)
    ensures ForwardedTexts(incoming) == ForwardedTexts(incoming[..i])
  {
    SplitAt(incoming, i);
  }

  /** A text message still to be written is one of the forwarded texts. */
  lemma PendingText(incoming: seq<WsRead>, i: nat)
    requires i < |incoming| && NoStop(incoming[..i]) && incoming[i].Text?
    ensures var done := ForwardedTexts(incoming[..i]);
            var texts := ForwardedTexts(incoming);
            |done| < |texts| && texts[..|done|] == done && texts[|done|] == incoming[i].text
  {
    SplitAt(incoming, i);
  }

  /**
   * The messages the server-to-WebSocket direction reads from everything the server sends:
   * one after the other until the first read that fails (end of stream, a bad header or body).
   */
  function Relayed(stream: seq<Byte>): seq<string>
    decreases |stream|
  {
    match ReadMessage(stream)
    case Err(_) => []
    case Ok((text, rest)) =>
      ReadMessageConsumes(stream);
      [text] + Relayed(rest)
  }

  /** The first of the sends `from` to `n - 1` that the WebSocket refuses. */
  function FirstRefused(send: nat -> bool, from: nat, n: nat): (r: Option<nat>)
    requires from <= n
    ensures r.Some? ==> from <= r.value < n && !send(r.value)
    ensures r.Some? ==> forall i :: from <= i < r.value ==> send(i)
    ensures r.None? <==> forall i :: from <= i < n ==> send(i)
    decreases n - from
  {
    if from == n then None
    else if !send(from) then Some(from)
    else FirstRefused(send, from + 1, n)
  }

  /** The first `n` sends all went through. */
  predicate AllSent(send: nat -> bool, n: nat) {
    forall i :: 0 <= i < n ==> send(i)
  }

  /**
   * What sending `texts` one WebSocket text message at a time delivers and reports: all of them
   * and success, or those before the first refused send and its error.
   */
  function SendOutcome(texts: seq<string>, send: nat -> bool): (seq<string>, Result<(), string>) {
    match FirstRefused(send, 0, |texts|)
    case None => (texts, Ok(()))
    case Some(k) => (texts[..k], Err(SendError))
  }

  /**
   * `forward_lsp_to_ws`: reads framed messages from the server and sends each to the WebSocket
   * as a text message; a failed read ends the direction normally, a failed send with an error.
   * `stream` is everything the server sends, `send(i)` whether the `i`-th send goes through;
   * `sent` is every message the editor receives, in order.
   */
  method ForwardLspToWs(stream: seq<Byte>, send: nat -> bool)
    returns (sent: seq<string>, r: Result<(), string>)
    ensures (sent, r) == SendOutcome(Relayed(stream), send)
  {
    sent := [];
    var unread := stream;
    while true
      invariant Relayed(stream) == sent + Relayed(unread)
      invariant AllSent(send, |sent|)
      decreases |unread|
    {
      var message := ReadLspMessage(unread);
      if message.Err? {
        NothingRelayed(unread);
        assert sent + [] == sent;
        AllDelivered(sent, send);
        return sent, Ok(());
      }
      var text, rest := message.value.0, message.value.1;
      RelayedStep(unread, text, rest);
      if !send(|sent|) {
        RefusedAt(sent, Relayed(unread), send);
        return sent, Err(SendError);
      }
      OneMoreSent(send, |sent|);
      Regroup(sent, [text], Relayed(rest));
      sent := sent + [text];
      unread := rest;
    }
  }

  lemma Regroup(a: seq<string>, b: seq<string>, c: seq<string>)
    ensures a + (b + c) == (a + b) + c
  {
  }

  /** A stream whose first read fails relays nothing. */
  lemma NothingRelayed(stream: seq<Byte>)
    requires ReadMessage(stream).Err?
    ensures Relayed(stream) == []
  {
  }

  /** A message read from the stream is relayed first, then what follows it. */
  lemma RelayedStep(stream: seq<Byte>, text: string, rest: seq<Byte>)
    requires ReadMessage(stream) == Ok((text, rest))
    ensures Relayed(stream) == [text] + Relayed(rest) && |rest| < |stream|
  {
    ReadMessageConsumes(stream);
  }

  lemma OneMoreSent(send: nat -> bool, n: nat)
    requires AllSent(send, n) && send(n)
    ensures AllSent(send, n + 1)
  {
  }

  /** When every send goes through, all messages reach the editor and the direction succeeds. */
  lemma AllDelivered(texts: seq<string>, send: nat -> bool)
    requires AllSent(send, |texts|)
    ensures SendOutcome(texts, send) == (texts, Ok(()))
  {
  }

  /** When the send after those of `done` is the first refused, only `done` reaches the editor. */
  lemma RefusedAt(done: seq<string>, more: seq<string>, send: nat -> bool)
    requires more != [] && AllSent(send, |done|) && !send(|done|)
    ensures SendOutcome(done + more, send) == (done, Err(SendError))
  {
    assert FirstRefused(send, 0, |done + more|) == Some(|done|);
    assert (done + more)[..|done|] == done;
  }

  /** Binary, Ping and Pong messages forward nothing and do not stop the direction. */
  lemma IgnoredMessage(m: WsRead, rest: seq<WsRead>)
    requires m.Binary? || m.Ping? || m.Pong?
    ensures ForwardedTexts([m] + rest) == ForwardedTexts(rest)
  {
    assert ([m] + rest)[1..] == rest;
  }

  /** A Close or a failed read ends the direction: nothing after it is forwarded. */
  lemma StopMessage(m: WsRead, rest: seq<WsRead>)
    requires m.Close? || m.ReadFailed?
    ensures ForwardedTexts([m] + rest) == []
  {
  }

  /** A text message is forwarded first, before everything after it. */
  lemma TextMessage(t: string, rest: seq<WsRead>)
    ensures ForwardedTexts([Text(t)] + rest) == [t] + ForwardedTexts(rest)
  {
    assert ([Text(t)] + rest)[1..] == rest;
  }

  /** The bytes of a run of frames: the first frame, then the others. */
  lemma ConcatFrames(texts: seq<string>)
    requires texts != []
    ensures Concat(FramesOf(texts)) == Frame(texts[0]) + Concat(FramesOf(texts[1..]))
  {
  }

  /** A server that sends nothing relays nothing. */
  lemma EmptyStreamRelaysNothing()
    ensures Relayed([]) == []
  {
    UnterminatedHeaderIsHeaderEof([]);
  }

  /**
   * Relaying what the editor-to-server direction writes gives back the texts: every frame is
   * read as exactly its text, in order, and nothing else is relayed.
   */
  lemma {:induction false} RelayRoundTrip(texts: seq<string>)
    requires forall i :: 0 <= i < |texts| ==> ByteLen(texts[i]) < UsizeLimit
    ensures Relayed(Concat(FramesOf(texts))) == texts
  {
    if texts == [] {
      EmptyStreamRelaysNothing();
    } else {
      var rest := Concat(FramesOf(texts[1..]));
      ConcatFrames(texts);
      FrameRoundTrip(texts[0], rest);
      RelayedStep(Frame(texts[0]) + rest, texts[0], rest);
      RelayRoundTrip(texts[1..]);
    }
  }

  /**
   * End to end: when every write to the server goes through, the server reads back exactly the
   * text messages the editor sent before it closed, in order and unchanged.
   */
  lemma ServerReadsEditorTexts(incoming: seq<WsRead>, sink: nat -> SinkResult)
    requires WritesSucceed(sink, |ForwardedTexts(incoming)|)
    requires forall i :: 0 <= i < |ForwardedTexts(incoming)| ==> ByteLen(ForwardedTexts(incoming)[i]) < UsizeLimit
    ensures Relayed(Concat(WriteOutcome(ForwardedTexts(incoming), sink).0)) == ForwardedTexts(incoming)
  {
    AllWritten(ForwardedTexts(incoming), sink);
    RelayRoundTrip(ForwardedTexts(incoming));
  }

  /** How many bytes of each relayed message the log line shows. */
  const PreviewLimit: nat := 200

  /**
   * The log preview as the relay writes it (lsp_proxy.rs:124 and :164): the message cut at byte
   * `min(len, 200)`. None stands for the panic Rust raises when that byte falls inside a
   * character. Info logging is enabled in every build, so the cut is always evaluated.
   */
  function PreviewAsWritten(text: string): (r: Option<string>)
    ensures r.Some? ==> |r.value| <= |text| && r.value == text[..|r.value|]
    ensures r.Some? ==> ByteLen(r.value) == if ByteLen(text) < PreviewLimit then ByteLen(text) else PreviewLimit
  {
    var cut := if ByteLen(text) < PreviewLimit then ByteLen(text) else PreviewLimit;
    match CharBoundary(text, cut)
    case None => None
    case Some(k) => Some(text[..k])
  }

  lemma OneCharLen(c: char)
    ensures ByteLen([c]) == |EncodeChar(c)|
  {
    assert [c][1..] == [];
    assert Encode([c]) == EncodeChar(c) + Encode([]);
  }

  /** Any character whose bytes straddle byte 200 makes the as-written preview panic. */
  lemma PreviewAsWrittenPanics(before: string, c: char, after: string)
    requires ByteLen(before) < PreviewLimit < ByteLen(before) + |EncodeChar(c)|
    ensures PreviewAsWritten(before + [c] + after) == None
  {
    ByteLenAppend(before + [c], after);
    ByteLenAppend(before, [c]);
    OneCharLen(c);
    InsideCharIsNoBoundary(before, c, after, PreviewLimit - ByteLen(before));
  }

  /** The message that shows it: 199 ASCII characters, then 'é' (two bytes: 199 and 200). */
  lemma AccentAtByte199Panics(before: string)
    requires IsAscii(before) && |before| == 199
    ensures PreviewAsWritten(before + ['\U{E9}']) == None
  {
    EncodeAscii(before);
    assert |EncodeChar('\U{E9}')| == 2;
    assert before + ['\U{E9}'] == before + ['\U{E9}'] + [];
    PreviewAsWrittenPanics(before, '\U{E9}', []);
  }

  /**
   * The longest prefix of `s` whose bytes fit in `budget`: the cut moved back to the last
   * character boundary at or before the budget.
   */
  function PrefixWithin(s: string, budget: nat): (r: string)
    ensures |r| <= |s| && r == s[..|r|] && ByteLen(r) <= budget
    ensures |r| < |s| ==> ByteLen(r) + |EncodeChar(s[|r|])| > budget
  {
    if s == [] || |EncodeChar(s[0])| > budget then []
    else
      var rest := PrefixWithin(s[1..], budget - |EncodeChar(s[0])|);
      assert ([s[0]] + rest)[1..] == rest;
      [s[0]] + rest
  }

  /** The preview with the cut made at a character boundary: never panics. */
  function Preview(text: string): (r: string)
    ensures |r| <= |text| && r == text[..|r|] && ByteLen(r) <= PreviewLimit
    ensures |r| < |text| ==> ByteLen(r) + |EncodeChar(text[|r|])| > PreviewLimit
  {
    PrefixWithin(text, PreviewLimit)
  }

  /** A string that fits the budget is kept whole. */
  lemma {:induction false} PrefixWithinFits(s: string, budget: nat)
    requires ByteLen(s) <= budget
    ensures PrefixWithin(s, budget) == s
  {
    if s != [] {
      PrefixWithinFits(s[1..], budget - |EncodeChar(s[0])|);
    }
  }

  /** A prefix that fills the budget exactly is what the cut keeps. */
  lemma {:induction false} PrefixWithinExact(s: string, k: nat, budget: nat)
    requires k <= |s| && ByteLen(s[..k]) == budget
    ensures PrefixWithin(s, budget) == s[..k]
  {
    if k > 0 {
      assert s[..k][0] == s[0] && s[..k][1..] == s[1..][..k - 1];
      PrefixWithinExact(s[1..], k - 1, budget - |EncodeChar(s[0])|);
    }
  }

  /** Wherever the as-written preview does not panic, the corrected one shows the same text. */
  lemma PreviewAgrees(text: string)
    ensures PreviewAsWritten(text).Some? ==> PreviewAsWritten(text).value == Preview(text)
  {
    if ByteLen(text) <= PreviewLimit {
      PrefixWithinFits(text, PreviewLimit);
      if PreviewAsWritten(text).Some? {
        var p := PreviewAsWritten(text).value;
        assert text == p + text[|p|..];
        ByteLenAppend(p, text[|p|..]);
      }
    } else if PreviewAsWritten(text).Some? {
      var p := PreviewAsWritten(text).value;
      PrefixWithinExact(text, |p|, PreviewLimit);
    }
  }
}
