/** What the decoder guarantees, stated against a line-level reading of the whole input:
    the buffer splits into complete lines and an unterminated tail, the reply is the in-order
    concatenation of the non-empty fragments of the complete lines up to the sentinel or the
    first payload that does not parse, and none of this depends on where the chunk
    boundaries fall. */
module ChatStreamProps {
  import opened Types
  import opened JsString
  import opened ChatStream

  // ----- Splitting text into lines -----------------------------------------------------

  /** The complete lines of `text`, in order, without their `\n` terminators. */
  function Lines(text: string): seq<string>
    decreases |text|
  {
    var i := IndexOf(text, '\n');
    if i == -1 then [] else [text[..i]] + Lines(text[i + 1..])
  }

  /** The text after the last `\n`. */
  function Unterminated(text: string): string
    decreases |text|
  {
    var i := IndexOf(text, '\n');
    if i == -1 then text else Unterminated(text[i + 1..])
  }

  /** Complete lines and the tail hold no `\n`. */
  lemma NoNewlineInLines(text: string)
    ensures forall k :: 0 <= k < |Lines(text)| ==> '\n' !in Lines(text)[k]
    ensures '\n' !in Unterminated(text)
  {
    NoNewlineInCompleteLines(text);
    NoNewlineInTail(text);
  }

  lemma {:induction false} NoNewlineInCompleteLines(text: string)
    ensures forall k :: 0 <= k < |Lines(text)| ==> '\n' !in Lines(text)[k]
    decreases |text|
  {
    var i := IndexOf(text, '\n');
    if i != -1 {
      IndexOfFirst(text, '\n');
      var rest := text[i + 1..];
      NoNewlineInCompleteLines(rest);
      assert Lines(text) == [text[..i]] + Lines(rest);
      forall k | 0 <= k < |Lines(text)| ensures '\n' !in Lines(text)[k] {
        if k > 0 { assert Lines(text)[k] == Lines(rest)[k - 1]; }
      }
    }
  }

  lemma {:induction false} NoNewlineInTail(text: string)
    ensures '\n' !in Unterminated(text)
    decreases |text|
  {
    var i := IndexOf(text, '\n');
    if i != -1 {
      NoNewlineInTail(text[i + 1..]);
    }
  }

  /** Each line followed by its `\n`. */
  function Terminated(lines: seq<string>): string {
    if lines == [] then "" else lines[0] + "\n" + Terminated(lines[1..])
  }

  function Concat(chunks: seq<string>): string {
    if chunks == [] then "" else chunks[0] + Concat(chunks[1..])
  }

  lemma SplitAtNewline(text: string, i: int)
    requires 0 <= i < |text| && text[i] == '\n'
    ensures text == text[..i] + "\n" + text[i + 1..]
  {
    assert text == text[..i] + text[i..];
    assert text[i..] == "\n" + text[i + 1..];
  }

  lemma Regroup(line: string, rest: string, t: string, u: string)
    requires t + u == rest
    ensures (line + "\n" + t) + u == line + "\n" + rest
  {
  }

  /** A text is its complete lines, each with its terminator, then the unterminated tail. */
  lemma {:induction false} LinesThenTail(text: string)
    ensures Terminated(Lines(text)) + Unterminated(text) == text
    decreases |text|
  {
    var i := IndexOf(text, '\n');
    if i != -1 {
      var rest := text[i + 1..];
      IndexOfFirst(text, '\n');
      SplitAtNewline(text, i);
      assert Lines(text)[1..] == Lines(rest);
      assert Terminated(Lines(text)) == text[..i] + "\n" + Terminated(Lines(rest));
      assert Unterminated(text) == Unterminated(rest);
      LinesThenTail(rest);
      Regroup(text[..i], rest, Terminated(Lines(rest)), Unterminated(rest));
    }
  }

  /** Conversely, lines free of `\n` followed by a tail free of `\n` split back into exactly those lines and that tail. */
  lemma {:induction false} SplitTerminated(lines: seq<string>, tail: string)
    requires forall k :: 0 <= k < |lines| ==> '\n' !in lines[k]
    requires '\n' !in tail
    ensures Lines(Terminated(lines) + tail) == lines
    ensures Unterminated(Terminated(lines) + tail) == tail
  {
    if lines != [] {
      var rest := Terminated(lines[1..]) + tail;
      assert Terminated(lines) + tail == lines[0] + "\n" + rest;
      IndexOfAfter(lines[0], '\n', rest);
      assert (lines[0] + "\n" + rest)[..|lines[0]|] == lines[0];
      assert (lines[0] + "\n" + rest)[|lines[0]| + 1..] == rest;
      SplitTerminated(lines[1..], tail);
    } else {
      assert Terminated(lines) + tail == tail;
    }
  }

  /** Text after the last `\n` is not part of any complete line. */
  lemma UnterminatedTextAddsNoLine(text: string, t: string)
    requires '\n' !in t
    ensures Lines(text + t) == Lines(text)
  {
    var lines, tail := Lines(text), Unterminated(text) + t;
    LinesThenTail(text);
    NoNewlineInLines(text);
    NoNewlineConcat(Unterminated(text), t);
    SeqAssoc(Terminated(lines), Unterminated(text), t);
    SplitTerminated(lines, tail);
  }

  lemma NoNewlineConcat(a: string, b: string)
    requires '\n' !in a && '\n' !in b
    ensures '\n' !in a + b
  {
  }

  // ----- The line-level reading --------------------------------------------------------

  /** The fragments of `lines`, in order, up to the first line that finishes or fails. */
  function Fragments(lines: seq<string>, parse: string -> ParseResult): seq<string> {
    if lines == [] then []
    else match Act(lines[0], parse)
      case Skip => Fragments(lines[1..], parse)
      case Append(f) => [f] + Fragments(lines[1..], parse)
      case _ => []
  }

  /** How reading `lines` ends: at the first line that finishes or fails, or drained. */
  function Ending(lines: seq<string>, parse: string -> ParseResult): PassEnd {
    if lines == [] then Drained
    else match Act(lines[0], parse)
      case Finish => Sentinel
      case Fail => Stalled
      case _ => Ending(lines[1..], parse)
  }

  /** What reading `lines` followed by the unterminated `tail` leaves unread: only the tail when
      no line stops the reading; after a sentinel line, the lines after it and the tail; after
      a line that does not parse, that line without its carriage return, its terminator, the
      lines after it and the tail. */
  function Unread(lines: seq<string>, tail: string, parse: string -> ParseResult): string {
    if lines == [] then tail
    else match Act(lines[0], parse)
      case Finish => Terminated(lines[1..]) + tail
      case Fail => StripCR(lines[0]) + "\n" + Terminated(lines[1..]) + tail
      case _ => Unread(lines[1..], tail, parse)
  }

  /** When no line stops the reading, only the tail is left unread. */
  lemma {:induction false} UnreadWhenDrained(lines: seq<string>, tail: string, parse: string -> ParseResult)
    requires Ending(lines, parse) == Drained
    ensures Unread(lines, tail, parse) == tail
  {
    if lines != [] {
      UnreadWhenDrained(lines[1..], tail, parse);
    }
  }

  /** The index of the first line that finishes or fails, or the number of lines if none does. */
  function StopAt(lines: seq<string>, parse: string -> ParseResult): nat {
    if lines == [] then 0
    else match Act(lines[0], parse)
      case Skip => 1 + StopAt(lines[1..], parse)
      case Append(_) => 1 + StopAt(lines[1..], parse)
      case _ => 0
  }

  /** When a line does not parse, what is left unread starts with that line, which comes after
      lines that neither finish nor fail, and is followed by the lines after it and the tail. */
  lemma {:induction false} UnreadWhenStalled(lines: seq<string>, tail: string, parse: string -> ParseResult)
    requires Ending(lines, parse) == Stalled
    ensures var k := StopAt(lines, parse);
      && k < |lines| && Ending(lines[..k], parse) == Drained && Act(lines[k], parse) == Fail
      && Unread(lines, tail, parse) == StripCR(lines[k]) + "\n" + Terminated(lines[k + 1..]) + tail
  {
    if Act(lines[0], parse) == Fail {
      assert lines[..0] == [];
    } else {
      var rest := lines[1..];
      assert Act(lines[0], parse).Skip? || Act(lines[0], parse).Append?;
      assert Ending(rest, parse) == Stalled && StopAt(lines, parse) == StopAt(rest, parse) + 1;
      assert Unread(lines, tail, parse) == Unread(rest, tail, parse);
      UnreadWhenStalled(rest, tail, parse);
      var k := StopAt(rest, parse);
      var prefix := lines[..k + 1];
      assert prefix[0] == lines[0] && prefix[1..] == rest[..k];
      assert Ending(prefix, parse) == Ending(rest[..k], parse);
      assert lines[k + 1] == rest[k] && lines[k + 2..] == rest[k + 1..];
    }
  }

  /** Reading stops at the first stopping line; after a drained prefix the rest is read on. */
  lemma {:induction false} FragmentsAppend(a: seq<string>, b: seq<string>, parse: string -> ParseResult)
    ensures Ending(a, parse) == Drained ==> Fragments(a + b, parse) == Fragments(a, parse) + Fragments(b, parse)
    ensures Ending(a, parse) == Drained ==> Ending(a + b, parse) == Ending(b, parse)
    ensures Ending(a, parse) != Drained ==> Fragments(a + b, parse) == Fragments(a, parse)
    ensures Ending(a, parse) != Drained ==> Ending(a + b, parse) == Ending(a, parse)
  {
    if a == [] {
      assert a + b == b;
    } else {
      var ab := a + b;
      assert ab[0] == a[0] && ab[1..] == a[1..] + b;
      match Act(a[0], parse)
      case Finish =>
      case Fail =>
      case Skip =>
        assert Fragments(ab, parse) == Fragments(a[1..] + b, parse);
        assert Ending(ab, parse) == Ending(a[1..] + b, parse);
        FragmentsAppend(a[1..], b, parse);
      case Append(f) =>
        assert Fragments(ab, parse) == [f] + Fragments(a[1..] + b, parse);
        assert Ending(ab, parse) == Ending(a[1..] + b, parse);
        FragmentsAppend(a[1..], b, parse);
        SeqAssoc([f], Fragments(a[1..], parse), Fragments(b, parse));
    }
  }

  lemma SeqAssoc<T>(x: seq<T>, y: seq<T>, z: seq<T>)
    ensures x + (y + z) == (x + y) + z
  {
  }

  /** Comment, blank and non-data lines between the others change neither the fragments nor
      how reading ends. */
  lemma IgnoredLineAddsNothing(a: seq<string>, line: string, b: seq<string>, parse: string -> ParseResult)
    requires Act(line, parse) == Skip
    ensures Fragments(a + [line] + b, parse) == Fragments(a + b, parse)
    ensures Ending(a + [line] + b, parse) == Ending(a + b, parse)
  {
    FragmentsAppend(a, [line] + b, parse);
    FragmentsAppend(a, b, parse);
    assert a + [line] + b == a + ([line] + b);
    assert ([line] + b)[1..] == b;
  }

  /** A sentinel line ends the reply: no line after it is read. */
  lemma SentinelLineEndsReply(a: seq<string>, line: string, b: seq<string>, parse: string -> ParseResult)
    requires Ending(a, parse) == Drained
    requires Act(line, parse) == Finish
    ensures Fragments(a + [line] + b, parse) == Fragments(a, parse)
    ensures Ending(a + [line] + b, parse) == Sentinel
  {
    FragmentsAppend(a, [line] + b, parse);
    assert a + [line] + b == a + ([line] + b);
    assert Fragments(a, parse) + [] == Fragments(a, parse);
  }

  // ----- One scan pass reads complete lines --------------------------------------------

  /** A scan pass reads the complete lines of its buffer in order: the reply grows by exactly
      their fragments, the pass ends as the line-level reading does, and it leaves unread what
      that reading leaves. */
  lemma {:induction false} ScanReadsLines(buffer: string, reply: string, messages: seq<ChatMessage>, parse: string -> ParseResult)
    ensures Scan(buffer, reply, messages, parse).reply == reply + Concat(Fragments(Lines(buffer), parse))
    ensures Scan(buffer, reply, messages, parse).end == Ending(Lines(buffer), parse)
    ensures Scan(buffer, reply, messages, parse).buffer == Unread(Lines(buffer), Unterminated(buffer), parse)
    decreases |buffer|, 1
  {
    if '\n' !in buffer {
      ScanDrains(buffer, reply, messages, parse);
      assert Lines(buffer) == [];
      assert reply + "" == reply;
    } else {
      match Act(buffer[..IndexOf(buffer, '\n')], parse)
      case Finish => FinishReadsLines(buffer, reply, messages, parse);
      case Fail => FailReadsLines(buffer, reply, messages, parse);
      case Skip => SkipReadsLines(buffer, reply, messages, parse);
      case Append(f) => AppendReadsLines(buffer, reply, messages, parse, f);
    }
  }

  lemma FinishReadsLines(buffer: string, reply: string, messages: seq<ChatMessage>, parse: string -> ParseResult)
    requires '\n' in buffer && Act(buffer[..IndexOf(buffer, '\n')], parse) == Finish
    ensures Scan(buffer, reply, messages, parse).reply == reply + Concat(Fragments(Lines(buffer), parse))
    ensures Scan(buffer, reply, messages, parse).end == Ending(Lines(buffer), parse)
    ensures Scan(buffer, reply, messages, parse).buffer == Unread(Lines(buffer), Unterminated(buffer), parse)
  {
    FirstLineThenRest(buffer);
    ScanFinishes(buffer, reply, messages, parse);
    assert reply + "" == reply;
  }

  lemma FailReadsLines(buffer: string, reply: string, messages: seq<ChatMessage>, parse: string -> ParseResult)
    requires '\n' in buffer && Act(buffer[..IndexOf(buffer, '\n')], parse) == Fail
    ensures Scan(buffer, reply, messages, parse).reply == reply + Concat(Fragments(Lines(buffer), parse))
    ensures Scan(buffer, reply, messages, parse).end == Ending(Lines(buffer), parse)
    ensures Scan(buffer, reply, messages, parse).buffer == Unread(Lines(buffer), Unterminated(buffer), parse)
  {
    var i := IndexOf(buffer, '\n');
    var rest := buffer[i + 1..];
    FirstLineThenRest(buffer);
    ScanFails(buffer, reply, messages, parse);
    SeqAssoc(StripCR(buffer[..i]) + "\n", Terminated(Lines(rest)), Unterminated(rest));
    assert Fragments(Lines(buffer), parse) == [] && Ending(Lines(buffer), parse) == Stalled;
    assert Unread(Lines(buffer), Unterminated(buffer), parse) == StripCR(buffer[..i]) + "\n" + Terminated(Lines(rest)) + Unterminated(rest);
    assert reply + "" == reply;
  }

  /** The text after the first `\n` is the remaining complete lines, terminated, then the tail. */
  lemma FirstLineThenRest(buffer: string)
    requires '\n' in buffer
    ensures var i := IndexOf(buffer, '\n');
      && Lines(buffer) != [] && Lines(buffer)[0] == buffer[..i] && Lines(buffer)[1..] == Lines(buffer[i + 1..])
      && Unterminated(buffer) == Unterminated(buffer[i + 1..])
      && buffer[i + 1..] == Terminated(Lines(buffer[i + 1..])) + Unterminated(buffer[i + 1..])
  {
    LinesThenTail(buffer[IndexOf(buffer, '\n') + 1..]);
  }

  lemma {:induction false} SkipReadsLines(buffer: string, reply: string, messages: seq<ChatMessage>, parse: string -> ParseResult)
    requires '\n' in buffer && Act(buffer[..IndexOf(buffer, '\n')], parse) == Skip
    ensures Scan(buffer, reply, messages, parse).reply == reply + Concat(Fragments(Lines(buffer), parse))
    ensures Scan(buffer, reply, messages, parse).end == Ending(Lines(buffer), parse)
    ensures Scan(buffer, reply, messages, parse).buffer == Unread(Lines(buffer), Unterminated(buffer), parse)
    decreases |buffer|, 0
  {
    var i := IndexOf(buffer, '\n');
    var rest := buffer[i + 1..];
    assert Lines(buffer)[0] == buffer[..i] && Lines(buffer)[1..] == Lines(rest);
    ScanSkips(buffer, reply, messages, parse);
    ScanReadsLines(rest, reply, messages, parse);
  }

  lemma {:induction false} AppendReadsLines(buffer: string, reply: string, messages: seq<ChatMessage>, parse: string -> ParseResult, f: string)
    requires '\n' in buffer && Act(buffer[..IndexOf(buffer, '\n')], parse) == Append(f)
    ensures Scan(buffer, reply, messages, parse).reply == reply + Concat(Fragments(Lines(buffer), parse))
    ensures Scan(buffer, reply, messages, parse).end == Ending(Lines(buffer), parse)
    ensures Scan(buffer, reply, messages, parse).buffer == Unread(Lines(buffer), Unterminated(buffer), parse)
    decreases |buffer|, 0
  {
    var i := IndexOf(buffer, '\n');
    var rest := buffer[i + 1..];
    assert Lines(buffer)[0] == buffer[..i] && Lines(buffer)[1..] == Lines(rest);
    ScanAppends(buffer, reply, messages, parse, f);
    ConcatCons(f, Fragments(Lines(rest), parse));
    ScanReadsLines(rest, reply + f, UpsertAssistant(messages, reply + f), parse);
    SeqAssoc(reply, f, Concat(Fragments(Lines(rest), parse)));
  }

  lemma ConcatCons(f: string, fs: seq<string>)
    ensures Concat([f] + fs) == f + Concat(fs)
  {
    assert ([f] + fs)[0] == f && ([f] + fs)[1..] == fs;
  }

  // ----- The message list shows the reply ----------------------------------------------

  /** Writing the reply twice leaves what writing it once with the later value does. */
  lemma UpsertAbsorbs(messages: seq<ChatMessage>, a: string, b: string)
    ensures UpsertAssistant(UpsertAssistant(messages, a), b) == UpsertAssistant(messages, b)
  {
    var m := UpsertAssistant(messages, a);
    UpsertShape(messages, a);
    UpsertShape(m, b);
    UpsertShape(messages, b);
    assert EndsWithAssistant(m);
    var r, r' := UpsertAssistant(m, b), UpsertAssistant(messages, b);
    assert r[..|r| - 1] == r'[..|r'| - 1];
    assert r == r[..|r| - 1] + [r[|r| - 1]];
    assert r' == r'[..|r'| - 1] + [r'[|r'| - 1]];
  }

  /** The messages are the ones the request started with, with the reply shown as the trailing
      assistant message as soon as it is non-empty. */
  predicate ShowsReply(start: seq<ChatMessage>, reply: string, messages: seq<ChatMessage>) {
    if reply == "" then messages == start else messages == UpsertAssistant(start, reply)
  }

  lemma ShowsLongerReply(start: seq<ChatMessage>, reply: string, messages: seq<ChatMessage>, f: string)
    requires ShowsReply(start, reply, messages) && f != ""
    ensures ShowsReply(start, reply + f, UpsertAssistant(messages, reply + f))
  {
    if reply != "" { UpsertAbsorbs(start, reply, reply + f); }
  }

  lemma AppendedFragmentIsNonEmpty(line: string, parse: string -> ParseResult)
    ensures Act(line, parse).Append? ==> Act(line, parse).fragment != ""
  {
  }

  lemma {:induction false} ScanShowsReply(start: seq<ChatMessage>, buffer: string, reply: string, messages: seq<ChatMessage>, parse: string -> ParseResult)
    requires ShowsReply(start, reply, messages)
    ensures ShowsReply(start, Scan(buffer, reply, messages, parse).reply, Scan(buffer, reply, messages, parse).messages)
    decreases |buffer|, 1
  {
    if '\n' !in buffer {
      ScanDrains(buffer, reply, messages, parse);
    } else {
      match Act(buffer[..IndexOf(buffer, '\n')], parse)
      case Finish => ScanFinishes(buffer, reply, messages, parse);
      case Fail => ScanFails(buffer, reply, messages, parse);
      case Skip => SkipShowsReply(start, buffer, reply, messages, parse);
      case Append(f) => AppendShowsReply(start, buffer, reply, messages, parse, f);
    }
  }

  lemma {:induction false} SkipShowsReply(start: seq<ChatMessage>, buffer: string, reply: string, messages: seq<ChatMessage>, parse: string -> ParseResult)
    requires '\n' in buffer && Act(buffer[..IndexOf(buffer, '\n')], parse) == Skip
    requires ShowsReply(start, reply, messages)
    ensures ShowsReply(start, Scan(buffer, reply, messages, parse).reply, Scan(buffer, reply, messages, parse).messages)
    decreases |buffer|, 0
  {
    ScanSkips(buffer, reply, messages, parse);
    ScanShowsReply(start, buffer[IndexOf(buffer, '\n') + 1..], reply, messages, parse);
  }

  lemma {:induction false} AppendShowsReply(start: seq<ChatMessage>, buffer: string, reply: string, messages: seq<ChatMessage>, parse: string -> ParseResult, f: string)
    requires '\n' in buffer && Act(buffer[..IndexOf(buffer, '\n')], parse) == Append(f)
    requires ShowsReply(start, reply, messages)
    ensures ShowsReply(start, Scan(buffer, reply, messages, parse).reply, Scan(buffer, reply, messages, parse).messages)
    decreases |buffer|, 0
  {
    ScanAppends(buffer, reply, messages, parse, f);
    AppendedFragmentIsNonEmpty(buffer[..IndexOf(buffer, '\n')], parse);
    ShowsLongerReply(start, reply, messages, f);
    ScanShowsReply(start, buffer[IndexOf(buffer, '\n') + 1..], reply + f, UpsertAssistant(messages, reply + f), parse);
  }

  lemma {:induction false} DecodeShowsReply(start: seq<ChatMessage>, s: Session, chunks: seq<string>, parse: string -> ParseResult)
    requires ShowsReply(start, s.reply, s.messages)
    ensures ShowsReply(start, Decode(s, chunks, parse).reply, Decode(s, chunks, parse).messages)
    decreases |chunks|
  {
    if !s.done && chunks != [] {
      ScanShowsReply(start, s.buffer + chunks[0], s.reply, s.messages, parse);
      DecodeShowsReply(start, AfterPass(Scan(s.buffer + chunks[0], s.reply, s.messages, parse)), chunks[1..], parse);
    }
  }

  // ----- Restore on failure ------------------------------------------------------------

  /** The first complete line of `buffer` is a data line whose payload does not parse. */
  predicate FailsFirst(buffer: string, parse: string -> ParseResult) {
    '\n' in buffer && Act(buffer[..IndexOf(buffer, '\n')], parse) == Fail
  }

  lemma DataPayloadStripCR(line: string)
    ensures DataPrefix <= StripCR(line) <==> DataPrefix <= line
    ensures DataPrefix <= line ==> Trim(StripCR(line)[|DataPrefix|..]) == Trim(line[|DataPrefix|..])
  {
    var l := StripCR(line);
    if l != line && DataPrefix <= line {
      assert line[5] == ' ';
      assert line == l + ['\r'];
      assert DataPrefix <= l;
      assert line[|DataPrefix|..] == l[|DataPrefix|..] + ['\r'];
      TrimIgnoresTrailingWhitespace(l[|DataPrefix|..], '\r');
    }
  }

  /** Stripping a carriage return a second time does not change how a line is classified. */
  lemma ClassifyIgnoresSecondStrip(line: string)
    ensures Classify(StripCR(line)) == Classify(line)
  {
    DataPayloadStripCR(line);
    ClassifyMeaning(line);
    ClassifyMeaning(StripCR(line));
  }

  /** A line put back after a failure, once its carriage return is gone, fails again. */
  lemma ActIgnoresSecondStrip(line: string, parse: string -> ParseResult)
    ensures Act(StripCR(line), parse) == Act(line, parse)
  {
    ClassifyIgnoresSecondStrip(StripCR(line));
  }

  /** A pass that drains leaves exactly the text after the last `\n` of its buffer. */
  lemma DrainedLeavesTail(buffer: string, reply: string, messages: seq<ChatMessage>, parse: string -> ParseResult)
    ensures Scan(buffer, reply, messages, parse).end == Drained ==> Scan(buffer, reply, messages, parse).buffer == Unterminated(buffer)
  {
    ScanReadsLines(buffer, reply, messages, parse);
    if Ending(Lines(buffer), parse) == Drained {
      UnreadWhenDrained(Lines(buffer), Unterminated(buffer), parse);
    }
  }

  /** A pass that stops on a payload that does not parse leaves that complete line, without its
      carriage return, then its terminator, the complete lines after it and the unterminated
      tail, so the next pass reads that line first and it fails again. */
  lemma StallRestoresLine(buffer: string, reply: string, messages: seq<ChatMessage>, parse: string -> ParseResult)
    requires Scan(buffer, reply, messages, parse).end == Stalled
    ensures var lines, k := Lines(buffer), StopAt(Lines(buffer), parse);
      && k < |lines| && Ending(lines[..k], parse) == Drained && Act(lines[k], parse) == Fail
      && Scan(buffer, reply, messages, parse).buffer == StripCR(lines[k]) + "\n" + Terminated(lines[k + 1..]) + Unterminated(buffer)
    ensures FailsFirst(Scan(buffer, reply, messages, parse).buffer, parse)
  {
    var lines, tail := Lines(buffer), Unterminated(buffer);
    var k := StopAt(lines, parse);
    ScanReadsLines(buffer, reply, messages, parse);
    UnreadWhenStalled(lines, tail, parse);
    NoNewlineInLines(buffer);
    RestoredLineFailsFirst(lines[k], Terminated(lines[k + 1..]) + tail, parse);
    SeqAssoc(StripCR(lines[k]) + "\n", Terminated(lines[k + 1..]), tail);
  }

  // One step of a scan pass, for each action the first line can lead to.

  lemma ScanSkips(buffer: string, reply: string, messages: seq<ChatMessage>, parse: string -> ParseResult)
    requires '\n' in buffer && Act(buffer[..IndexOf(buffer, '\n')], parse) == Skip
    ensures Scan(buffer, reply, messages, parse) == Scan(buffer[IndexOf(buffer, '\n') + 1..], reply, messages, parse)
  {
  }

  lemma ScanAppends(buffer: string, reply: string, messages: seq<ChatMessage>, parse: string -> ParseResult, f: string)
    requires '\n' in buffer && Act(buffer[..IndexOf(buffer, '\n')], parse) == Append(f)
    ensures Scan(buffer, reply, messages, parse) == Scan(buffer[IndexOf(buffer, '\n') + 1..], reply + f, UpsertAssistant(messages, reply + f), parse)
  {
  }

  lemma ScanFinishes(buffer: string, reply: string, messages: seq<ChatMessage>, parse: string -> ParseResult)
    requires '\n' in buffer && Act(buffer[..IndexOf(buffer, '\n')], parse) == Finish
    ensures Scan(buffer, reply, messages, parse) == Pass(buffer[IndexOf(buffer, '\n') + 1..], reply, messages, Sentinel)
  {
  }

  lemma ScanDrains(buffer: string, reply: string, messages: seq<ChatMessage>, parse: string -> ParseResult)
    requires '\n' !in buffer
    ensures Scan(buffer, reply, messages, parse) == Pass(buffer, reply, messages, Drained)
  {
  }

  lemma ScanFails(buffer: string, reply: string, messages: seq<ChatMessage>, parse: string -> ParseResult)
    requires '\n' in buffer && Act(buffer[..IndexOf(buffer, '\n')], parse) == Fail
    ensures Scan(buffer, reply, messages, parse)
      == Pass(StripCR(buffer[..IndexOf(buffer, '\n')]) + "\n" + buffer[IndexOf(buffer, '\n') + 1..], reply, messages, Stalled)
  {
  }

  lemma RestoredLineFailsFirst(line: string, rest: string, parse: string -> ParseResult)
    requires '\n' !in line
    requires Act(line, parse) == Fail
    ensures FailsFirst(StripCR(line) + "\n" + rest, parse)
  {
    var l := StripCR(line);
    assert '\n' !in l by { assert l <= line; }
    IndexOfAfter(l, '\n', rest);
    assert (l + "\n" + rest)[..|l|] == l;
    ActIgnoresSecondStrip(line, parse);
  }

  /** A buffer whose first line does not parse stalls again at once, and adds nothing. */
  lemma FailingLineStallsAgain(buffer: string, reply: string, messages: seq<ChatMessage>, parse: string -> ParseResult)
    requires FailsFirst(buffer, parse)
    ensures Scan(buffer, reply, messages, parse).end == Stalled
    ensures Scan(buffer, reply, messages, parse).reply == reply
    ensures Scan(buffer, reply, messages, parse).messages == messages
    ensures FailsFirst(Scan(buffer, reply, messages, parse).buffer, parse)
  {
    ScanFails(buffer, reply, messages, parse);
    StallRestoresLine(buffer, reply, messages, parse);
  }

  // ----- Appending text to a buffer ----------------------------------------------------

  /** Text appended to a buffer is read after the complete lines already there: a pass that
      drained continues on the leftover text, and a pass that stopped stops in the same way,
      with the appended text left after what it left unread. */
  lemma ScanAppend(buffer: string, more: string, reply: string, messages: seq<ChatMessage>, parse: string -> ParseResult)
    ensures Scan(buffer, reply, messages, parse).end == Drained ==>
      Scan(buffer + more, reply, messages, parse) == Scan(Scan(buffer, reply, messages, parse).buffer + more, Scan(buffer, reply, messages, parse).reply, Scan(buffer, reply, messages, parse).messages, parse)
    ensures Scan(buffer, reply, messages, parse).end != Drained ==>
      Scan(buffer + more, reply, messages, parse) == Scan(buffer, reply, messages, parse).(buffer := Scan(buffer, reply, messages, parse).buffer + more)
  {
    var p := Scan(buffer, reply, messages, parse);
    if p.end == Drained {
      DrainedScanAppend(buffer, more, reply, messages, parse, p.buffer, p.reply, p.messages);
    } else {
      StoppedScanAppend(buffer, more, reply, messages, parse);
    }
  }

  lemma {:induction false} DrainedScanAppend(buffer: string, more: string, reply: string, messages: seq<ChatMessage>, parse: string -> ParseResult,
                                             left: string, reply': string, messages': seq<ChatMessage>)
    requires Scan(buffer, reply, messages, parse) == Pass(left, reply', messages', Drained)
    ensures Scan(buffer + more, reply, messages, parse) == Scan(left + more, reply', messages', parse)
    decreases |buffer|, 1
  {
    if '\n' !in buffer {
      ScanDrains(buffer, reply, messages, parse);
    } else {
      match Act(buffer[..IndexOf(buffer, '\n')], parse)
      case Skip =>
        DrainedSkipAppend(buffer, more, reply, messages, parse, left, reply', messages');
      case Append(f) =>
        DrainedAppendAppend(buffer, more, reply, messages, parse, f, left, reply', messages');
      case Finish =>
        ScanFinishes(buffer, reply, messages, parse);
        assert false;
      case Fail =>
        ScanFails(buffer, reply, messages, parse);
        assert false;
    }
  }

  lemma {:induction false} DrainedSkipAppend(buffer: string, more: string, reply: string, messages: seq<ChatMessage>, parse: string -> ParseResult,
                                             left: string, reply': string, messages': seq<ChatMessage>)
    requires '\n' in buffer && Act(buffer[..IndexOf(buffer, '\n')], parse) == Skip
    requires Scan(buffer, reply, messages, parse) == Pass(left, reply', messages', Drained)
    ensures Scan(buffer + more, reply, messages, parse) == Scan(left + more, reply', messages', parse)
    decreases |buffer|, 0
  {
    ScanSkips(buffer, reply, messages, parse);
    ScanSkipsAppended(buffer, more, reply, messages, parse);
    DrainedScanAppend(buffer[IndexOf(buffer, '\n') + 1..], more, reply, messages, parse, left, reply', messages');
  }

  lemma {:induction false} DrainedAppendAppend(buffer: string, more: string, reply: string, messages: seq<ChatMessage>, parse: string -> ParseResult,
                                               f: string, left: string, reply': string, messages': seq<ChatMessage>)
    requires '\n' in buffer && Act(buffer[..IndexOf(buffer, '\n')], parse) == Append(f)
    requires Scan(buffer, reply, messages, parse) == Pass(left, reply', messages', Drained)
    ensures Scan(buffer + more, reply, messages, parse) == Scan(left + more, reply', messages', parse)
    decreases |buffer|, 0
  {
    ScanAppends(buffer, reply, messages, parse, f);
    ScanAppendsAppended(buffer, more, reply, messages, parse, f);
    DrainedScanAppend(buffer[IndexOf(buffer, '\n') + 1..], more, reply + f, UpsertAssistant(messages, reply + f), parse, left, reply', messages');
  }

  /** A skipped first line is skipped the same way when more text follows the buffer. */
  lemma ScanSkipsAppended(buffer: string, more: string, reply: string, messages: seq<ChatMessage>, parse: string -> ParseResult)
    requires '\n' in buffer && Act(buffer[..IndexOf(buffer, '\n')], parse) == Skip
    ensures Scan(buffer + more, reply, messages, parse) == Scan(buffer[IndexOf(buffer, '\n') + 1..] + more, reply, messages, parse)
  {
    AppendKeepsFirstLine(buffer, more);
    ScanSkips(buffer + more, reply, messages, parse);
  }

  /** A first line that appends a fragment does so the same way when more text follows the buffer. */
  lemma ScanAppendsAppended(buffer: string, more: string, reply: string, messages: seq<ChatMessage>, parse: string -> ParseResult, f: string)
    requires '\n' in buffer && Act(buffer[..IndexOf(buffer, '\n')], parse) == Append(f)
    ensures Scan(buffer + more, reply, messages, parse) ==
      Scan(buffer[IndexOf(buffer, '\n') + 1..] + more, reply + f, UpsertAssistant(messages, reply + f), parse)
  {
    AppendKeepsFirstLine(buffer, more);
    ScanAppends(buffer + more, reply, messages, parse, f);
  }

  lemma {:induction false} StoppedScanAppend(buffer: string, more: string, reply: string, messages: seq<ChatMessage>, parse: string -> ParseResult)
    requires Scan(buffer, reply, messages, parse).end != Drained
    ensures Scan(buffer + more, reply, messages, parse) == Scan(buffer, reply, messages, parse).(buffer := Scan(buffer, reply, messages, parse).buffer + more)
    decreases |buffer|, 1
  {
    if '\n' !in buffer {
      ScanDrains(buffer, reply, messages, parse);
      assert false;
    } else {
      match Act(buffer[..IndexOf(buffer, '\n')], parse)
      case Skip =>
        StoppedSkipAppend(buffer, more, reply, messages, parse);
      case Append(f) =>
        StoppedAppendAppend(buffer, more, reply, messages, parse, f);
      case Finish =>
        ScanFinishes(buffer, reply, messages, parse);
        AppendKeepsFirstLine(buffer, more);
        ScanFinishes(buffer + more, reply, messages, parse);
      case Fail =>
        StoppedFailAppend(buffer, more, reply, messages, parse);
    }
  }

  lemma {:induction false} StoppedSkipAppend(buffer: string, more: string, reply: string, messages: seq<ChatMessage>, parse: string -> ParseResult)
    requires '\n' in buffer && Act(buffer[..IndexOf(buffer, '\n')], parse) == Skip
    requires Scan(buffer, reply, messages, parse).end != Drained
    ensures Scan(buffer + more, reply, messages, parse) == Scan(buffer, reply, messages, parse).(buffer := Scan(buffer, reply, messages, parse).buffer + more)
    decreases |buffer|, 0
  {
    ScanSkips(buffer, reply, messages, parse);
    ScanSkipsAppended(buffer, more, reply, messages, parse);
    StoppedScanAppend(buffer[IndexOf(buffer, '\n') + 1..], more, reply, messages, parse);
  }

  lemma {:induction false} StoppedAppendAppend(buffer: string, more: string, reply: string, messages: seq<ChatMessage>, parse: string -> ParseResult, f: string)
    requires '\n' in buffer && Act(buffer[..IndexOf(buffer, '\n')], parse) == Append(f)
    requires Scan(buffer, reply, messages, parse).end != Drained
    ensures Scan(buffer + more, reply, messages, parse) == Scan(buffer, reply, messages, parse).(buffer := Scan(buffer, reply, messages, parse).buffer + more)
    decreases |buffer|, 0
  {
    ScanAppends(buffer, reply, messages, parse, f);
    ScanAppendsAppended(buffer, more, reply, messages, parse, f);
    StoppedScanAppend(buffer[IndexOf(buffer, '\n') + 1..], more, reply + f, UpsertAssistant(messages, reply + f), parse);
  }

  lemma StoppedFailAppend(buffer: string, more: string, reply: string, messages: seq<ChatMessage>, parse: string -> ParseResult)
    requires '\n' in buffer && Act(buffer[..IndexOf(buffer, '\n')], parse) == Fail
    ensures Scan(buffer + more, reply, messages, parse) == Scan(buffer, reply, messages, parse).(buffer := Scan(buffer, reply, messages, parse).buffer + more)
  {
    var i := IndexOf(buffer, '\n');
    ScanFails(buffer, reply, messages, parse);
    AppendKeepsFirstLine(buffer, more);
    ScanFails(buffer + more, reply, messages, parse);
    SeqAssoc(StripCR(buffer[..i]) + "\n", buffer[i + 1..], more);
  }

  /** Appending text keeps the first complete line and appends to what follows it. */
  lemma AppendKeepsFirstLine(buffer: string, more: string)
    requires '\n' in buffer
    ensures IndexOf(buffer + more, '\n') == IndexOf(buffer, '\n')
    ensures (buffer + more)[..IndexOf(buffer, '\n')] == buffer[..IndexOf(buffer, '\n')]
    ensures (buffer + more)[IndexOf(buffer, '\n') + 1..] == buffer[IndexOf(buffer, '\n') + 1..] + more
  {
    IndexOfAppend(buffer, more, '\n');
  }

  lemma FailsFirstAppend(buffer: string, more: string, parse: string -> ParseResult)
    requires FailsFirst(buffer, parse)
    ensures FailsFirst(buffer + more, parse)
  {
    AppendKeepsFirstLine(buffer, more);
  }

  // ----- Chunk boundaries do not matter ------------------------------------------------

  /** Session `s` is where the read loop stands after the text `text`, read from the message
      list `start`: it agrees with one scan pass over all of `text` on the reply, the messages
      and whether the sentinel was seen, and its buffer is the text after the last `\n` when that
      pass drains, or starts with a line that fails again when it stalls. */
  predicate Reached(text: string, start: seq<ChatMessage>, s: Session, parse: string -> ParseResult) {
    var p := Scan(text, "", start, parse);
    && s.reply == p.reply && s.messages == p.messages && s.done == (p.end == Sentinel)
    && (p.end == Drained ==> s.buffer == Unterminated(text))
    && (p.end == Stalled ==> FailsFirst(s.buffer, parse))
  }

  lemma ReachedAfterChunk(text: string, chunk: string, start: seq<ChatMessage>, s: Session, parse: string -> ParseResult)
    requires Reached(text, start, s, parse) && !s.done
    ensures Reached(text + chunk, start, AfterPass(Scan(s.buffer + chunk, s.reply, s.messages, parse)), parse)
  {
    var p := Scan(text, "", start, parse);
    var q := Scan(s.buffer + chunk, s.reply, s.messages, parse);
    DrainedLeavesTail(text, "", start, parse);
    DrainedLeavesTail(text + chunk, "", start, parse);
    ScanAppend(text, chunk, "", start, parse);
    if p.end == Stalled {
      FailsFirstAppend(s.buffer, chunk, parse);
      FailingLineStallsAgain(s.buffer + chunk, s.reply, s.messages, parse);
    } else if q.end == Stalled {
      StallRestoresLine(s.buffer + chunk, s.reply, s.messages, parse);
    }
  }

  /** After the sentinel, more text leaves the session where it was. */
  lemma SentinelStaysReached(text: string, more: string, start: seq<ChatMessage>, s: Session, parse: string -> ParseResult)
    requires Reached(text, start, s, parse) && s.done
    ensures Reached(text + more, start, s, parse)
  {
    ScanAppend(text, more, "", start, parse);
  }

  lemma ConcatStep(text: string, chunks: seq<string>)
    requires chunks != []
    ensures text + chunks[0] + Concat(chunks[1..]) == text + Concat(chunks)
  {
  }

  lemma {:induction false} DecodeReached(text: string, start: seq<ChatMessage>, s: Session, chunks: seq<string>, parse: string -> ParseResult)
    requires Reached(text, start, s, parse)
    ensures Reached(text + Concat(chunks), start, Decode(s, chunks, parse), parse)
    decreases |chunks|
  {
    if chunks == [] {
      assert text + Concat(chunks) == text;
    } else if s.done {
      SentinelStaysReached(text, Concat(chunks), start, s, parse);
    } else {
      var s' := AfterPass(Scan(s.buffer + chunks[0], s.reply, s.messages, parse));
      ReachedAfterChunk(text, chunks[0], start, s, parse);
      DecodeReached(text + chunks[0], start, s', chunks[1..], parse);
      assert Decode(s, chunks, parse) == Decode(s', chunks[1..], parse);
      ConcatStep(text, chunks);
    }
  }

  /** Chunk-boundary independence: reading the chunks one at a time gives the same reply,
      messages and sentinel outcome as one scan pass over their concatenation, and when that
      pass drains, the buffer holds exactly the text after the last `\n`. */
  lemma ChunkBoundaryIndependence(chunks: seq<string>, start: seq<ChatMessage>, parse: string -> ParseResult)
    ensures var d, p := Decode(Start(start), chunks, parse), Scan(Concat(chunks), "", start, parse);
      && d.reply == p.reply && d.messages == p.messages && d.done == (p.end == Sentinel)
      && (p.end == Drained ==> d.buffer == Unterminated(Concat(chunks)))
  {
    DecodeReached("", start, Start(start), chunks, parse);
    assert "" + Concat(chunks) == Concat(chunks);
  }

  /** Two deliveries of the same text, however it is cut into chunks, give the same reply,
      the same messages and the same sentinel outcome. */
  lemma SameTextSameReply(chunks: seq<string>, chunks': seq<string>, start: seq<ChatMessage>, parse: string -> ParseResult)
    requires Concat(chunks) == Concat(chunks')
    ensures Decode(Start(start), chunks, parse).reply == Decode(Start(start), chunks', parse).reply
    ensures Decode(Start(start), chunks, parse).messages == Decode(Start(start), chunks', parse).messages
    ensures Decode(Start(start), chunks, parse).done == Decode(Start(start), chunks', parse).done
  {
    ChunkBoundaryIndependence(chunks, start, parse);
    ChunkBoundaryIndependence(chunks', start, parse);
  }

  /** The reply is the in-order concatenation of the fragments of the complete lines of all the
      text received, up to the sentinel or the first payload that does not parse; the message
      list shows it as one trailing assistant message, and only once it is non-empty. */
  lemma ReplyIsFragmentsOfCompleteLines(chunks: seq<string>, start: seq<ChatMessage>, parse: string -> ParseResult)
    ensures var d, lines := Decode(Start(start), chunks, parse), Lines(Concat(chunks));
      && d.reply == Concat(Fragments(lines, parse))
      && d.done == (Ending(lines, parse) == Sentinel)
      && d.messages == if d.reply == "" then start else UpsertAssistant(start, d.reply)
  {
    ChunkBoundaryIndependence(chunks, start, parse);
    ScanReadsLines(Concat(chunks), "", start, parse);
    assert "" + Concat(Fragments(Lines(Concat(chunks)), parse)) == Concat(Fragments(Lines(Concat(chunks)), parse));
    DecodeShowsReply(start, Start(start), chunks, parse);
  }

  lemma {:induction false} ConcatAppend(a: seq<string>, b: seq<string>)
    ensures Concat(a + b) == Concat(a) + Concat(b)
  {
    if a != [] {
      assert (a + b)[1..] == a[1..] + b;
      ConcatAppend(a[1..], b);
    } else {
      assert a + b == b;
    }
  }

  /** The unterminated text at the end of the stream is never classified: it adds nothing to the reply. */
  lemma UnterminatedTailDropped(chunks: seq<string>, tail: string, start: seq<ChatMessage>, parse: string -> ParseResult)
    requires '\n' !in tail
    ensures Decode(Start(start), chunks + [tail], parse).reply == Decode(Start(start), chunks, parse).reply
    ensures Decode(Start(start), chunks + [tail], parse).done == Decode(Start(start), chunks, parse).done
  {
    ConcatAppend(chunks, [tail]);
    assert Concat([tail]) == tail;
    UnterminatedTextAddsNoLine(Concat(chunks), tail);
    ReplyIsFragmentsOfCompleteLines(chunks, start, parse);
    ReplyIsFragmentsOfCompleteLines(chunks + [tail], start, parse);
  }

  lemma {:induction false} DecodeAppend(s: Session, a: seq<string>, b: seq<string>, parse: string -> ParseResult)
    ensures Decode(s, a + b, parse) == Decode(Decode(s, a, parse), b, parse)
    decreases |a|
  {
    if a == [] {
      assert a + b == b;
    } else if !s.done {
      assert (a + b)[0] == a[0] && (a + b)[1..] == a[1..] + b;
      DecodeAppend(AfterPass(Scan(s.buffer + a[0], s.reply, s.messages, parse)), a[1..], b, parse);
    }
  }

  /** Once the sentinel has been seen, no later chunk is read: the session stays as it was. */
  lemma SentinelEndsDecoding(chunks: seq<string>, more: seq<string>, start: seq<ChatMessage>, parse: string -> ParseResult)
    requires Decode(Start(start), chunks, parse).done
    ensures Decode(Start(start), chunks + more, parse) == Decode(Start(start), chunks, parse)
  {
    DecodeAppend(Start(start), chunks, more, parse);
  }

  /** Once a payload has failed to parse, the reply and the messages never change again and the
      sentinel is never reached, whatever text follows: the restored line fails on every pass. */
  lemma StallFreezesReply(chunks: seq<string>, more: seq<string>, start: seq<ChatMessage>, parse: string -> ParseResult)
    requires Scan(Concat(chunks), "", start, parse).end == Stalled
    ensures Decode(Start(start), chunks + more, parse).reply == Decode(Start(start), chunks, parse).reply
    ensures Decode(Start(start), chunks + more, parse).messages == Decode(Start(start), chunks, parse).messages
    ensures !Decode(Start(start), chunks + more, parse).done
  {
    ChunkBoundaryIndependence(chunks, start, parse);
    ChunkBoundaryIndependence(chunks + more, start, parse);
    ConcatAppend(chunks, more);
    ScanAppend(Concat(chunks), Concat(more), "", start, parse);
  }
}
