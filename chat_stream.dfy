/** The streaming chat-reply decoder as functions on values: the code's own classification of
    server-sent-event lines (it splits only at `\n`, needs a space after `data:` and parses each
    data line on its own), one scan pass over the text buffer, the whole read loop over the
    decoded chunks, and the update of the visible message list. */
module ChatStream {
  import opened Types
  import opened JsString

  /** What `JSON.parse(payload)` followed by reading `choices[0].delta.content` gives:
      `ParseFail` when either throws, otherwise the content if it is a string. A truthy
      non-string content is not distinguished from its string form. */
  datatype ParseResult = ParseFail | Parsed(content: Option<string>)

  /** How the scan loop treats one extracted line. */
  datatype LineKind = Ignored | DoneSentinel | Payload(json: string)

  const DataPrefix: string := "data: "
  const DoneMarker: string := "[DONE]"

  /** Removes one trailing carriage return. */
  function StripCR(line: string): string {
    if |line| > 0 && line[|line| - 1] == '\r' then line[..|line| - 1] else line
  }

  /** `StripCR` removes a carriage return at the end of the line, and otherwise nothing. */
  lemma StripCRShape(line: string)
    ensures StripCR(line) <= line && |line| - |StripCR(line)| <= 1
    ensures |StripCR(line)| < |line| <==> (|line| > 0 && line[|line| - 1] == '\r')
  {
  }

  /** The classification of a CR-stripped line: comments, blank lines and lines without the
      `data: ` prefix are ignored; a data line carries the trimmed rest of the line, and the
      payload `[DONE]` ends the stream. The comment and blank tests never decide anything a
      missing prefix would not: a line with the prefix is neither. */
  function Classify(line: string): LineKind
  {
    if ":" <= line || Trim(line) == "" then Ignored
    else if !(DataPrefix <= line) then Ignored
    else
      var json := Trim(line[|DataPrefix|..]);
      if json == DoneMarker then DoneSentinel else Payload(json)
  }

  lemma ClassifyMeaning(line: string)
    ensures Classify(line).Ignored? <==> !(DataPrefix <= line)
    ensures Classify(line).DoneSentinel? <==> DataPrefix <= line && Trim(line[|DataPrefix|..]) == DoneMarker
    ensures Classify(line).Payload? ==> Classify(line).json == Trim(line[|DataPrefix|..]) && Classify(line).json != DoneMarker
  {
    DataLineIsNeitherCommentNorBlank(line);
    TrimShape(line);
  }

  lemma DataLineIsNeitherCommentNorBlank(line: string)
    ensures DataPrefix <= line ==> !(":" <= line) && !AllWhitespace(line)
  {
    if DataPrefix <= line {
      assert line[0] == 'd';
    }
  }

  /** The `setMessages` updater: the reply so far replaces the content of a trailing
      assistant message, or is appended as a new assistant message. */
  function UpsertAssistant(messages: seq<ChatMessage>, reply: string): seq<ChatMessage> {
    var n := |messages|;
    if EndsWithAssistant(messages) then
      messages[..n - 1] + [messages[n - 1].(content := reply)]
    else
      messages + [ChatMessage(Assistant, reply)]
  }

  /** After the update the last message is the assistant's, holding the reply; every earlier
      message is kept, and a new message is added only when the list did not end with an
      assistant message. */
  lemma UpsertShape(messages: seq<ChatMessage>, reply: string)
    ensures var r := UpsertAssistant(messages, reply);
      |r| > 0 && r[|r| - 1] == ChatMessage(Assistant, reply)
    ensures EndsWithAssistant(messages) ==>
      |UpsertAssistant(messages, reply)| == |messages| && UpsertAssistant(messages, reply)[..|messages| - 1] == messages[..|messages| - 1]
    ensures !EndsWithAssistant(messages) ==>
      |UpsertAssistant(messages, reply)| == |messages| + 1 && UpsertAssistant(messages, reply)[..|messages|] == messages
  {
  }

  predicate EndsWithAssistant(messages: seq<ChatMessage>) {
    |messages| > 0 && messages[|messages| - 1].role == Assistant
  }

  /** Why a scan pass stopped: no complete line left, the `[DONE]` sentinel, or a payload
      that did not parse. */
  datatype PassEnd = Drained | Sentinel | Stalled

  /** The state after one pass of the inner loop. */
  datatype Pass = Pass(buffer: string, reply: string, messages: seq<ChatMessage>, end: PassEnd)

  /** What the loop body does with one complete line once a trailing carriage return is
      removed: skip it, append a non-empty content fragment to the reply, finish at the sentinel,
      or fail on a payload that does not parse. */
  datatype Action = Skip | Append(fragment: string) | Finish | Fail

  function Act(line: string, parse: string -> ParseResult): Action {
    match Classify(StripCR(line))
    case Ignored => Skip
    case DoneSentinel => Finish
    case Payload(json) =>
      match parse(json)
      case ParseFail => Fail
      case Parsed(content) => if content.Some? && content.value != "" then Append(content.value) else Skip
  }

  /** The outcome of a line, stated against the line itself: a line without the `data: `
      prefix is skipped; on a data line the trimmed payload `[DONE]` finishes, a payload that
      does not parse fails, and a parsed payload appends its content when that is a non-empty
      string. */
  lemma ActMeaning(line: string, parse: string -> ParseResult)
    ensures !(DataPrefix <= StripCR(line)) ==> Act(line, parse) == Skip
    ensures DataPrefix <= StripCR(line) && Trim(StripCR(line)[|DataPrefix|..]) == DoneMarker ==> Act(line, parse) == Finish
    ensures DataPrefix <= StripCR(line) && Trim(StripCR(line)[|DataPrefix|..]) != DoneMarker ==>
      match parse(Trim(StripCR(line)[|DataPrefix|..]))
      case ParseFail => Act(line, parse) == Fail
      case Parsed(Some(c)) => Act(line, parse) == if c == "" then Skip else Append(c)
      case Parsed(None) => Act(line, parse) == Skip
  {
    ClassifyMeaning(StripCR(line));
  }

  /** One pass of the inner loop over `buffer`: cut off complete lines one at a time and act on
      each, until no `\n` is left, the sentinel is seen, or a payload fails to parse, in which
      case the CR-stripped line and its terminator are put back in front of the buffer. */
  function Scan(buffer: string, reply: string, messages: seq<ChatMessage>, parse: string -> ParseResult): Pass
    decreases |buffer|
  {
    var i := IndexOf(buffer, '\n');
    if i == -1 then Pass(buffer, reply, messages, Drained)
    else
      var rest := buffer[i + 1..];
      match Act(buffer[..i], parse)
      case Skip => Scan(rest, reply, messages, parse)
      case Append(f) => Scan(rest, reply + f, UpsertAssistant(messages, reply + f), parse)
      case Finish => Pass(rest, reply, messages, Sentinel)
      case Fail => Pass(StripCR(buffer[..i]) + "\n" + rest, reply, messages, Stalled)
  }

  /** The decoding state of one request: `textBuffer`, `assistantSoFar`, the message list and
      `streamDone`. */
  datatype Session = Session(buffer: string, reply: string, messages: seq<ChatMessage>, done: bool)

  /** The session that starts reading a reply, after the user message has been shown. */
  function Start(messages: seq<ChatMessage>): Session {
    Session("", "", messages, false)
  }

  function AfterPass(p: Pass): Session {
    Session(p.buffer, p.reply, p.messages, p.end == Sentinel)
  }

  /** The outer read loop over the decoded chunks: until the sentinel, append each chunk to the
      buffer and run one scan pass; when the chunks run out, whatever is buffered is dropped. */
  function Decode(s: Session, chunks: seq<string>, parse: string -> ParseResult): Session
    decreases |chunks|
  {
    if s.done || chunks == [] then s
    else Decode(AfterPass(Scan(s.buffer + chunks[0], s.reply, s.messages, parse)), chunks[1..], parse)
  }
}
