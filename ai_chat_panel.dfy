/** The chat widget's send action and its streaming read loop, as the imperative code they are:
    the panel keeps the message list, the input and the in-flight flag in fields; the read
    loops keep the text buffer, the sentinel flag and the reply so far in locals; each loop is
    proved against the scan and decode functions. */
module AIChatPanel {
  import opened Types
  import opened JsString
  import opened ChatStream
  import opened ChatStreamProps

  /** One pass of the inner loop of `sendMessage` over the buffer `buffer`, with the reply so
      far `reply` and the message list `messages`: cut off and act on complete lines until none
      is left, the sentinel is seen, or a payload does not parse and its line is put back. The
      message-list updates of one pass are applied together, as the component's state updates
      of one uninterrupted stretch are. */
  method DrainLines(buffer: string, reply: string, messages: seq<ChatMessage>, parse: string -> ParseResult)
    returns (textBuffer: string, assistantSoFar: string, shown: seq<ChatMessage>, streamDone: bool)
    ensures Session(textBuffer, assistantSoFar, shown, streamDone) == AfterPass(Scan(buffer, reply, messages, parse))
  {
    textBuffer, assistantSoFar, shown, streamDone := buffer, reply, messages, false;
    ghost var stopped := false;
    while IndexOf(textBuffer, '\n') != -1
      invariant !streamDone && !stopped
      invariant Scan(textBuffer, assistantSoFar, shown, parse) == Scan(buffer, reply, messages, parse)
      decreases |textBuffer|
    {
      var newlineIndex := IndexOf(textBuffer, '\n');
      ghost var whole := textBuffer;
      var line := textBuffer[..newlineIndex];
      textBuffer := textBuffer[newlineIndex + 1..];
      if |line| > 0 && line[|line| - 1] == '\r' {
        line := line[..|line| - 1];
      }
      assert line == StripCR(whole[..newlineIndex]);
      if ":" <= line || Trim(line) == "" {
        IgnoredLineIsSkipped(whole, assistantSoFar, shown, parse);
        continue;
      }
      if !(DataPrefix <= line) {
        IgnoredLineIsSkipped(whole, assistantSoFar, shown, parse);
        continue;
      }
      var jsonStr := Trim(line[|DataPrefix|..]);
      if jsonStr == DoneMarker {
        SentinelLineFinishes(whole, assistantSoFar, shown, parse);
        streamDone := true;
        stopped := true;
        break;
      }
      match parse(jsonStr)
      case ParseFail =>
        PayloadLineFails(whole, assistantSoFar, shown, parse);
        textBuffer := line + "\n" + textBuffer;
        stopped := true;
        break;
      case Parsed(content) =>
        if content.Some? && content.value != "" {
          PayloadLineAppends(whole, assistantSoFar, shown, parse, content.value);
          assistantSoFar := assistantSoFar + content.value;
          shown := UpsertAssistant(shown, assistantSoFar);
        } else {
          EmptyPayloadIsSkipped(whole, assistantSoFar, shown, parse);
        }
    }
    if !stopped {
      ScanDrains(textBuffer, assistantSoFar, shown, parse);
    }
  }

  // The loop body's tests on the CR-stripped first line, as steps of the scan.

  lemma IgnoredLineIsSkipped(buffer: string, reply: string, messages: seq<ChatMessage>, parse: string -> ParseResult)
    requires '\n' in buffer
    requires var line := StripCR(buffer[..IndexOf(buffer, '\n')]);
      ":" <= line || Trim(line) == "" || !(DataPrefix <= line)
    ensures Scan(buffer, reply, messages, parse) == Scan(buffer[IndexOf(buffer, '\n') + 1..], reply, messages, parse)
  {
    ClassifyMeaning(StripCR(buffer[..IndexOf(buffer, '\n')]));
    DataLineIsNeitherCommentNorBlank(StripCR(buffer[..IndexOf(buffer, '\n')]));
    TrimShape(StripCR(buffer[..IndexOf(buffer, '\n')]));
    ScanSkips(buffer, reply, messages, parse);
  }

  lemma SentinelLineFinishes(buffer: string, reply: string, messages: seq<ChatMessage>, parse: string -> ParseResult)
    requires '\n' in buffer
    requires var line := StripCR(buffer[..IndexOf(buffer, '\n')]);
      !(":" <= line || Trim(line) == "") && DataPrefix <= line && Trim(line[|DataPrefix|..]) == DoneMarker
    ensures Scan(buffer, reply, messages, parse) == Pass(buffer[IndexOf(buffer, '\n') + 1..], reply, messages, Sentinel)
  {
    ScanFinishes(buffer, reply, messages, parse);
  }

  lemma PayloadLineFails(buffer: string, reply: string, messages: seq<ChatMessage>, parse: string -> ParseResult)
    requires '\n' in buffer
    requires var line := StripCR(buffer[..IndexOf(buffer, '\n')]);
      && !(":" <= line || Trim(line) == "") && DataPrefix <= line && Trim(line[|DataPrefix|..]) != DoneMarker
      && parse(Trim(line[|DataPrefix|..])) == ParseFail
    ensures Scan(buffer, reply, messages, parse) ==
      Pass(StripCR(buffer[..IndexOf(buffer, '\n')]) + "\n" + buffer[IndexOf(buffer, '\n') + 1..], reply, messages, Stalled)
  {
    ScanFails(buffer, reply, messages, parse);
  }

  lemma PayloadLineAppends(buffer: string, reply: string, messages: seq<ChatMessage>, parse: string -> ParseResult, f: string)
    requires '\n' in buffer
    requires var line := StripCR(buffer[..IndexOf(buffer, '\n')]);
      && !(":" <= line || Trim(line) == "") && DataPrefix <= line && Trim(line[|DataPrefix|..]) != DoneMarker
      && parse(Trim(line[|DataPrefix|..])) == Parsed(Some(f)) && f != ""
    ensures Scan(buffer, reply, messages, parse) ==
      Scan(buffer[IndexOf(buffer, '\n') + 1..], reply + f, UpsertAssistant(messages, reply + f), parse)
  {
    ScanAppends(buffer, reply, messages, parse, f);
  }

  lemma EmptyPayloadIsSkipped(buffer: string, reply: string, messages: seq<ChatMessage>, parse: string -> ParseResult)
    requires '\n' in buffer
    requires var line := StripCR(buffer[..IndexOf(buffer, '\n')]);
      && !(":" <= line || Trim(line) == "") && DataPrefix <= line && Trim(line[|DataPrefix|..]) != DoneMarker
      && parse(Trim(line[|DataPrefix|..])).Parsed?
      && var content := parse(Trim(line[|DataPrefix|..])).content; !(content.Some? && content.value != "")
    ensures Scan(buffer, reply, messages, parse) == Scan(buffer[IndexOf(buffer, '\n') + 1..], reply, messages, parse)
  {
    ScanSkips(buffer, reply, messages, parse);
  }

  /** The chat widget's state: the message list, the input field and the in-flight flag. */
  class ChatPanel {
    var messages: seq<ChatMessage>
    var input: string
    var isLoading: bool

    constructor()
      ensures messages == [] && input == "" && !isLoading
    {
      messages := [];
      input := "";
      isLoading := false;
    }

    /** The input field's change handler. */
    method SetInput(value: string)
      modifies this
      ensures input == value && messages == old(messages) && isLoading == old(isLoading)
    {
      input := value;
    }

    /** Sending: ignored while the trimmed input is empty or a reply is being read; otherwise
        the trimmed input is shown as a user message, the input is cleared and the reply is
        read from the stream's decoded chunks. The messages end as the ones before, the user
        message, and the assistant message holding the fragments of the complete lines
        received, when there are any. */
    method SendMessage(chunks: seq<string>, parse: string -> ParseResult)
      modifies this
      ensures old(Trim(input) == "" || isLoading) ==>
        messages == old(messages) && input == old(input) && isLoading == old(isLoading)
      ensures !old(Trim(input) == "" || isLoading) ==>
        var sent := old(messages) + [ChatMessage(User, Trim(old(input)))];
        var reply := Concat(Fragments(Lines(Concat(chunks)), parse));
        && messages == (if reply == "" then sent else UpsertAssistant(sent, reply))
        && input == "" && !isLoading
    {
      if Trim(input) == "" || isLoading {
        return;
      }
      var userMsg := ChatMessage(User, Trim(input));
      var allMessages := messages + [userMsg];
      messages := allMessages;
      input := "";
      isLoading := true;
      var textBuffer, streamDone, assistantSoFar := "", false, "";
      var k := 0;
      while !streamDone && k < |chunks|
        invariant 0 <= k <= |chunks| && input == "" && isLoading
        invariant Decode(Session(textBuffer, assistantSoFar, messages, streamDone), chunks[k..], parse) ==
          Decode(Start(allMessages), chunks, parse)
      {
        assert chunks[k..][1..] == chunks[k + 1..];
        textBuffer := textBuffer + chunks[k];
        k := k + 1;
        var shown;
        textBuffer, assistantSoFar, shown, streamDone := DrainLines(textBuffer, assistantSoFar, messages, parse);
        messages := shown;
      }
      ReplyIsFragmentsOfCompleteLines(chunks, allMessages, parse);
      isLoading := false;
    }
  }
}
