/**
 * The Content-Length framing of the Language Server Protocol, as the editor's back end writes
 * it and reads it back (src-tauri/src/lsp_proxy.rs, and the same code again in
 * src-tauri/src/commands.rs). A message is a header "Content-Length: L" ended by a blank line,
 * then exactly L bytes of UTF-8 text. The reader collects the header one byte at a time, each
 * byte taken as the character with that code (Latin-1), until the bytes read so far end in
 * "\r\n\r\n".
 */
module LspFraming {
  import opened Wrappers
  import opened Text
  import opened Utf8

  /** The header line the reader looks for. */
  const LengthField: string := "Content-Length:"

  /** The end of the header: an empty line after the last header line. */
  const HeaderEnd: string := "\r\n\r\n"

  /** Why reading one message failed. */
  datatype FrameError =
    | HeaderEof   // the stream ended before the header did
    | BadLength   // no "Content-Length:" line, or its value is no `usize`
    | BodyEof     // the stream ended before the body did
    | BadUtf8     // the body is not UTF-8

  /** The header written before a body of `n` bytes. */
  function Header(n: nat): string {
    "Content-Length: " + Decimal(n) + HeaderEnd
  }

  /** `format!("Content-Length: {}\r\n\r\n{}", text.len(), text)`, as the bytes written. */
  function Frame(text: string): seq<Byte> {
    Encode(Header(ByteLen(text)) + text)
  }

  /** Header bytes as the reader collects them: `byte as char`, one character per byte. */
  function Latin1(bs: seq<Byte>): (r: string)
    ensures |r| == |bs| && forall i :: 0 <= i < |bs| ==> r[i] as int == bs[i]
  {
    seq(|bs|, i requires 0 <= i < |bs| => bs[i] as char)
  }

  /** The characters collected so far end the header. */
  predicate Terminated(h: string) {
    |h| >= 4 && h[|h| - 4..] == HeaderEnd
  }

  /** The first `m` bytes of `input`, read as header characters, end the header. */
  predicate EndsHeader(input: seq<Byte>, m: nat)
    requires m <= |input|
  {
    Terminated(Latin1(input[..m]))
  }

  /**
   * The length of the header at the front of `input`: the shortest prefix, at least `n`
   * bytes long, that ends in "\r\n\r\n"; None when the input ends first.
   */
  function HeaderLength(input: seq<Byte>, n: nat): (r: Option<nat>)
    requires n <= |input|
    ensures r.Some? ==> n <= r.value <= |input| && EndsHeader(input, r.value)
    ensures r.Some? ==> forall m :: n <= m < r.value ==> !EndsHeader(input, m)
    ensures r.None? <==> forall m :: n <= m <= |input| ==> !EndsHeader(input, m)
    decreases |input| - n
  {
    if EndsHeader(input, n) then Some(n)
    else if n == |input| then None
    else HeaderLength(input, n + 1)
  }

  /**
   * `lines().find(|line| line.starts_with(prefix))`: where the first line with that prefix
   * stands, if any line has it.
   */
  function FirstWithPrefix(lines: seq<string>, prefix: string): (r: Option<nat>)
    ensures r.None? <==> forall i :: 0 <= i < |lines| ==> !StartsWith(lines[i], prefix)
    ensures r.Some? ==> r.value < |lines| && StartsWith(lines[r.value], prefix)
    ensures r.Some? ==> forall j :: 0 <= j < r.value ==> !StartsWith(lines[j], prefix)
  {
    if lines == [] then None
    else if StartsWith(lines[0], prefix) then Some(0)
    else match FirstWithPrefix(lines[1..], prefix)
      case None => None
      case Some(i) => Some(i + 1)
  }

  /** `split(':').nth(1)`: the text after the first ':' up to the next ':' or the end. */
  function SecondField(line: string): (r: Option<string>)
    ensures r.Some? <==> ':' in line
    ensures r.Some? ==> ':' !in r.value
  {
    match IndexOf(line, ':')
    case None => None
    case Some(i) =>
      var rest := line[i + 1..];
      match IndexOf(rest, ':')
      case None => Some(rest)
      case Some(j) => Some(rest[..j])
  }

  /**
   * The body length a header announces: the value of its first "Content-Length:" line,
   * trimmed and parsed as a `usize`. None when that line is missing or its value is no number;
   * a later "Content-Length:" line is never consulted.
   */
  function ContentLength(header: string): (r: Option<nat>)
    ensures r.Some? ==> r.value < UsizeLimit
  {
    match FirstWithPrefix(Lines(header), LengthField)
    case None => None
    case Some(i) =>
      match SecondField(Lines(header)[i])
      case None => None
      case Some(field) => ParseUsize(Trim(field))
  }

  /**
   * `read_lsp_message` as a function of everything the stream will deliver: the body of the
   * first message and what follows it, or why there is none.
   */
  function ReadMessage(input: seq<Byte>): Result<(string, seq<Byte>), FrameError> {
    match HeaderLength(input, 0)
    case None => Err(HeaderEof)
    case Some(h) => ReadBody(ContentLength(Latin1(input[..h])), input[h..])
  }

  /** What follows the header: exactly the announced number of bytes, as UTF-8. */
  function ReadBody(length: Option<nat>, after: seq<Byte>): Result<(string, seq<Byte>), FrameError> {
    match length
    case None => Err(BadLength)
    case Some(n) =>
      if |after| < n then Err(BodyEof)
      else match Decode(after[..n])
        case None => Err(BadUtf8)
        case Some(text) => Ok((text, after[n..]))
  }

  /**
   * `read_lsp_message`: reads header bytes one at a time until they end in "\r\n\r\n", parses
   * the length, then takes exactly that many bytes and decodes them. The input is everything
   * the stream will deliver; the second component of the result is what is left unread.
   */
  method ReadLspMessage(input: seq<Byte>) returns (r: Result<(string, seq<Byte>), FrameError>)
    ensures r == ReadMessage(input)
  {
    var headers: string := [];
    var pos := 0;
    while true
      invariant pos <= |input| && headers == Latin1(input[..pos])
      invariant !Terminated(headers)
      invariant HeaderLength(input, pos) == HeaderLength(input, 0)
      decreases |input| - pos
    {
      if pos == |input| {
        assert HeaderLength(input, pos) == None;
        return Err(HeaderEof);
      }
      Latin1Snoc(input, pos);
      headers := headers + [input[pos] as char];
      pos := pos + 1;
      if |headers| >= 4 && headers[|headers| - 4..] == HeaderEnd {
        break;
      }
    }
    assert HeaderLength(input, 0) == Some(pos);
    assert ReadMessage(input) == ReadBody(ContentLength(headers), input[pos..]);
    var length := ContentLength(headers);
    if length.None? {
      return Err(BadLength);
    }
    var n := length.value;
    var unread := input[pos..];
    if |unread| < n {
      return Err(BodyEof);
    }
    var content := unread[..n];
    var text := Decode(content);
    if text.None? {
      return Err(BadUtf8);
    }
    return Ok((text.value, unread[n..]));
  }

  /** A message read consumes its header and body: what is left is a proper suffix. */
  lemma ReadMessageConsumes(input: seq<Byte>)
    ensures ReadMessage(input).Ok? ==> exists k :: 0 < k <= |input| && ReadMessage(input).value.1 == input[k..]
  {
    if ReadMessage(input).Ok? {
      var h := HeaderLength(input, 0).value;
      var k := ConsumedAfterHeader(input, h, ContentLength(Latin1(input[..h])));
      assert ReadMessage(input).value.1 == input[k..];
    }
  }

  /** A body read after a header leaves what follows both, a proper suffix of the input. */
  lemma ConsumedAfterHeader(input: seq<Byte>, h: nat, length: Option<nat>) returns (k: nat)
    requires h <= |input| && EndsHeader(input, h) && ReadBody(length, input[h..]).Ok?
    ensures 0 < k <= |input| && ReadBody(length, input[h..]).value.1 == input[k..]
  {
    assert |Latin1(input[..h])| >= 4;
    k := h + length.value;
    assert input[h..][length.value..] == input[k..];
  }

  /** A header with no "Content-Length:" line announces no length. */
  lemma NoLengthLine(header: string)
    requires forall i :: 0 <= i < |Lines(header)| ==> !StartsWith(Lines(header)[i], LengthField)
    ensures ContentLength(header) == None
  {
  }

  /** One more header byte read. */
  lemma Latin1Snoc(input: seq<Byte>, pos: nat)
    requires pos < |input|
    ensures Latin1(input[..pos + 1]) == Latin1(input[..pos]) + [input[pos] as char]
  {
    assert input[..pos + 1][..pos] == input[..pos];
  }

  /** The header is plain ASCII. */
  lemma HeaderIsAscii(n: nat)
    ensures IsAscii(Header(n))
  {
    var d := Decimal(n);
    assert forall i :: 0 <= i < |d| ==> IsDigit(d[i]);
  }

  /** The only carriage returns of a header are those of its final "\r\n\r\n". */
  lemma HeaderHasNoEarlyCR(n: nat)
    ensures |Header(n)| >= 4
    ensures forall i :: 0 <= i < |Header(n)| - 4 ==> Header(n)[i] != '\r'
  {
    var d := Decimal(n);
    assert forall i :: 0 <= i < |d| ==> IsDigit(d[i]);
  }

  /** ASCII text read back byte by byte is the same text. */
  lemma Latin1OfAscii(s: string)
    requires IsAscii(s)
    ensures Latin1(Encode(s)) == s
  {
    EncodeAscii(s);
  }

  /** A frame is its header's bytes followed by exactly the text's bytes. */
  lemma FrameLayout(text: string)
    ensures Frame(text) == Encode(Header(ByteLen(text))) + Encode(text)
    ensures |Frame(text)| == |Header(ByteLen(text))| + ByteLen(text)
  {
    EncodeAppend(Header(ByteLen(text)), text);
    HeaderIsAscii(ByteLen(text));
    EncodeAscii(Header(ByteLen(text)));
  }

  /** No prefix of a header's bytes shorter than the header ends in "\r\n\r\n". */
  lemma HeaderPrefixNotTerminated(n: nat, more: seq<Byte>, m: nat)
    requires m < |Header(n)|
    requires m <= |Encode(Header(n)) + more|
    ensures !EndsHeader(Encode(Header(n)) + more, m)
  {
    HeaderIsAscii(n);
    EncodeAscii(Header(n));
    HeaderHasNoEarlyCR(n);
    var input := Encode(Header(n)) + more;
    if m >= 4 {
      assert Latin1(input[..m])[m - 4] as int == Header(n)[m - 4] as int;
      assert Latin1(input[..m])[m - 4] == Latin1(input[..m])[m - 4..][0];
    }
  }

  /** The header of a frame is found exactly where it ends. */
  lemma HeaderLengthOfFrame(n: nat, more: seq<Byte>)
    ensures HeaderLength(Encode(Header(n)) + more, 0) == Some(|Header(n)|)
  {
    var input := Encode(Header(n)) + more;
    HeaderIsAscii(n);
    EncodeAscii(Header(n));
    assert input[..|Header(n)|] == Encode(Header(n));
    Latin1OfAscii(Header(n));
    assert Terminated(Header(n));
    assert EndsHeader(input, |Header(n)|);
    forall m | 0 <= m < |Header(n)|
      ensures !EndsHeader(input, m)
    {
      HeaderPrefixNotTerminated(n, more, m);
    }
  }

  /** The lines of a header: the length line, then the empty line that ends it. */
  lemma HeaderLines(n: nat)
    ensures Lines(Header(n))[0] == "Content-Length: " + Decimal(n)
  {
    var line := "Content-Length: " + Decimal(n);
    var d := Decimal(n);
    assert forall i :: 0 <= i < |d| ==> IsDigit(d[i]);
    assert Header(n) == line + "\r\n\r\n";
    assert '\n' !in line + "\r";
    FirstIndexOf(Header(n), '\n', |line| + 1);
    assert Header(n)[..|line| + 1] == line + "\r";
  }

  /** The length line's value field is a space and the digits. */
  lemma LengthLineField(n: nat)
    ensures SecondField("Content-Length: " + Decimal(n)) == Some(" " + Decimal(n))
  {
    var line := "Content-Length: " + Decimal(n);
    var d := Decimal(n);
    assert forall i :: 0 <= i < |d| ==> IsDigit(d[i]);
    FirstIndexOf(line, ':', 14);
    assert line[15..] == " " + d;
  }

  /** The first header line is the length line. */
  lemma LengthLineIsFirst(n: nat)
    ensures FirstWithPrefix(Lines(Header(n)), LengthField) == Some(0)
    ensures Lines(Header(n))[0] == "Content-Length: " + Decimal(n)
  {
    HeaderLines(n);
    assert StartsWith(Lines(Header(n))[0], LengthField);
  }

  /** The value field trims to the digits. */
  lemma TrimmedLengthField(n: nat)
    ensures Trim(" " + Decimal(n)) == Decimal(n)
  {
    TrimSkipsLeadingSpace(" ", Decimal(n));
    DecimalIsTrimmed(n);
  }

  /** The header of a frame announces the length it was written with. */
  lemma ContentLengthOfHeader(n: nat)
    requires n < UsizeLimit
    ensures ContentLength(Header(n)) == Some(n)
  {
    LengthLineIsFirst(n);
    LengthLineField(n);
    TrimmedLengthField(n);
    DecimalRoundTrip(n);
  }

  /**
   * Reading a frame gives back its text and leaves whatever follows it unread, for every text
   * whose byte length is a `usize`.
   */
  lemma FrameRoundTrip(text: string, rest: seq<Byte>)
    requires ByteLen(text) < UsizeLimit
    ensures ReadMessage(Frame(text) + rest) == Ok((text, rest))
  {
    var n := ByteLen(text);
    var body := Encode(text) + rest;
    FrameLayout(text);
    assert Frame(text) + rest == Encode(Header(n)) + body;
    HeaderOfFrame(n, body);
    BodyOfFrame(text, rest);
  }

  /** In front of any bytes, a header for `n` is found whole and announces `n`. */
  lemma HeaderOfFrame(n: nat, body: seq<Byte>)
    requires n < UsizeLimit
    ensures var input := Encode(Header(n)) + body;
            var h := |Header(n)|;
            && HeaderLength(input, 0) == Some(h) && h <= |input|
            && ContentLength(Latin1(input[..h])) == Some(n) && input[h..] == body
  {
    var input := Encode(Header(n)) + body;
    HeaderLengthOfFrame(n, body);
    HeaderIsAscii(n);
    EncodeAscii(Header(n));
    assert input[..|Header(n)|] == Encode(Header(n));
    Latin1OfAscii(Header(n));
    ContentLengthOfHeader(n);
  }

  /** The announced number of bytes after the header is the text, and the rest is left unread. */
  lemma BodyOfFrame(text: string, rest: seq<Byte>)
    ensures ReadBody(Some(ByteLen(text)), Encode(text) + rest) == Ok((text, rest))
  {
    var body := Encode(text) + rest;
    assert body[..ByteLen(text)] == Encode(text);
    DecodeEncode(text);
    assert body[ByteLen(text)..] == rest;
  }

  /** A frame cut short inside its body is a stream that ended before the body did. */
  lemma TruncatedBodyIsBodyEof(text: string, k: nat)
    requires ByteLen(text) < UsizeLimit && k < ByteLen(text)
    ensures ReadMessage(Encode(Header(ByteLen(text))) + Encode(text)[..k]) == Err(BodyEof)
  {
    var n := ByteLen(text);
    var input := Encode(Header(n)) + Encode(text)[..k];
    HeaderLengthOfFrame(n, Encode(text)[..k]);
    HeaderIsAscii(n);
    EncodeAscii(Header(n));
    assert input[..|Header(n)|] == Encode(Header(n));
    Latin1OfAscii(Header(n));
    ContentLengthOfHeader(n);
  }

  /** Without a "\r\n\r\n" anywhere in the stream no message can be read. */
  lemma UnterminatedHeaderIsHeaderEof(input: seq<Byte>)
    requires forall m :: 0 <= m <= |input| ==> !EndsHeader(input, m)
    ensures ReadMessage(input) == Err(HeaderEof)
  {
  }
}
