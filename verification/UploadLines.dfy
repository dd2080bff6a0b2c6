/** The line discipline of the factory link: bytes to lines, lines to commands and payloads. */
module UploadLines {
  const K_MAX_RX_LINE := 1024
  const K_HANDSHAKE_COMMAND := "M5FACTORY:HANDSHAKE"
  const K_RESULT_ACK_COMMAND := "M5FACTORY:ACK_RESULT"

  datatype Assembled = Assembled(lines: seq<string>, buffer: string)

  /** A line that outgrows the limit is thrown away as far as it goes; its rest starts afresh. */
  function Grown(buffer: string, c: char): string {
    if |buffer| + 1 > K_MAX_RX_LINE then "" else buffer + [c]
  }

  function Assemble(buffer: string, received: string): Assembled
    decreases received
  {
    if received == "" then Assembled([], buffer)
    else if received[0] == '\r' then Assemble(buffer, received[1..])
    else if received[0] != '\n' then Assemble(Grown(buffer, received[0]), received[1..])
    else
      var rest := Assemble("", received[1..]);
      if buffer == "" then rest else rest.(lines := [buffer] + rest.lines)
  }

  function Then(first: Assembled, second: Assembled): Assembled {
    Assembled(first.lines + second.lines, second.buffer)
  }

  /** How the serial reads cut the stream does not matter. */
  lemma {:induction false} AssembleAppend(buffer: string, a: string, b: string)
    ensures Assemble(buffer, a + b) == Then(Assemble(buffer, a), Assemble(Assemble(buffer, a).buffer, b))
    decreases a
  {
    if a == "" {
      assert a + b == b;
    } else {
      assert (a + b)[0] == a[0] && (a + b)[1..] == a[1..] + b;
      if a[0] == '\r' {
        AssembleAppend(buffer, a[1..], b);
      } else if a[0] != '\n' {
        AssembleAppend(Grown(buffer, a[0]), a[1..], b);
      } else {
        AssembleAppend("", a[1..], b);
        var middle := Assemble("", a[1..]);
        var last := Assemble(middle.buffer, b);
        assert [buffer] + (middle.lines + last.lines) == [buffer] + middle.lines + last.lines;
      }
    }
  }

  lemma AssembleOne(buffer: string, c: char)
    ensures Assemble(buffer, [c])
            == if c == '\r' then Assembled([], buffer)
               else if c != '\n' then Assembled([], Grown(buffer, c))
               else Assembled(if buffer == "" then [] else [buffer], "")
  {
    assert [c][1..] == "";
  }

  predicate Plain(text: string) {
    forall i :: 0 <= i < |text| ==> text[i] != '\r' && text[i] != '\n'
  }

  /** What is left of a long line: everything up to the last multiple of 1025 characters is gone. */
  function Rest(text: string): string { text[|text| - |text| % (K_MAX_RX_LINE + 1)..] }

  function GrownBy(buffer: string, text: string): string
    decreases text
  {
    if text == "" then buffer else GrownBy(Grown(buffer, text[0]), text[1..])
  }

  lemma {:induction false} PlainTextAccumulates(buffer: string, text: string)
    requires Plain(text)
    ensures Assemble(buffer, text) == Assembled([], GrownBy(buffer, text))
    decreases text
  {
    if text != "" {
      PlainTextAccumulates(Grown(buffer, text[0]), text[1..]);
    }
  }

  lemma {:induction false} GrownLeavesRest(before: string, text: string)
    ensures GrownBy(Rest(before), text) == Rest(before + text)
    decreases text
  {
    if text == "" {
      assert before + text == before;
    } else {
      var longer := before + [text[0]];
      assert longer + text[1..] == before + text;
      assert Grown(Rest(before), text[0]) == Rest(longer) by {
        RestStep(before, text[0]);
      }
      GrownLeavesRest(longer, text[1..]);
    }
  }

  lemma RestStep(before: string, c: char)
    ensures Grown(Rest(before), c) == Rest(before + [c])
  {
    var n := |before| % (K_MAX_RX_LINE + 1);
    if n == K_MAX_RX_LINE {
      assert (|before| + 1) % (K_MAX_RX_LINE + 1) == 0;
    } else {
      assert (|before| + 1) % (K_MAX_RX_LINE + 1) == n + 1;
    }
  }

  /** A stream of lines, and the lines it is read as. */
  function Stream(texts: seq<string>): string {
    if texts == [] then "" else texts[0] + "\n" + Stream(texts[1..])
  }

  function Delivered(texts: seq<string>): seq<string> {
    if texts == [] then []
    else (if Rest(texts[0]) == "" then [] else [Rest(texts[0])]) + Delivered(texts[1..])
  }

  /** Every line is delivered, in order: whole if it has 1 to 1024 characters, else what is left of it. */
  lemma {:induction false} LinesDelivered(texts: seq<string>)
    requires forall i :: 0 <= i < |texts| ==> Plain(texts[i])
    ensures Assemble("", Stream(texts)) == Assembled(Delivered(texts), "")
  {
    if texts != [] {
      var text, rest := texts[0], Stream(texts[1..]);
      PlainTextAccumulates("", text);
      GrownLeavesRest("", text);
      assert "" + text == text && Rest("") == "";
      assert Stream(texts) == text + ("\n" + rest);
      AssembleAppend("", text, "\n" + rest);
      assert ("\n" + rest)[0] == '\n' && ("\n" + rest)[1..] == rest;
      LinesDelivered(texts[1..]);
    }
  }

  /** A nonempty line arrives unchanged exactly if it is within the limit. */
  lemma WholeIffShort(text: string)
    requires text != ""
    ensures Rest(text) == text <==> |text| <= K_MAX_RX_LINE
  {
    if |text| > K_MAX_RX_LINE {
      assert |Rest(text)| == |text| % (K_MAX_RX_LINE + 1) < |text|;
    }
  }

  // ---------------------------------------------------------------- commands

  predicate Matches(line: string, command: string) {
    command <= line && (|line| == |command| || line[|command|] == ' ')
  }

  predicate IsHandshake(line: string) { Matches(line, K_HANDSHAKE_COMMAND) }

  /** Looked for after the handshake, of which it is never one as well. */
  predicate IsAck(line: string) { Matches(line, K_RESULT_ACK_COMMAND) && !IsHandshake(line) }

  lemma HandshakeIsNoAck(line: string)
    ensures Matches(line, K_RESULT_ACK_COMMAND) ==> !IsHandshake(line)
  {
    MatchesFirstWord(line, K_HANDSHAKE_COMMAND);
    MatchesFirstWord(line, K_RESULT_ACK_COMMAND);
    assert K_HANDSHAKE_COMMAND[10] != K_RESULT_ACK_COMMAND[10];
  }

  function SkipSpaces(text: string): string {
    if text != "" && text[0] == ' ' then SkipSpaces(text[1..]) else text
  }

  function PayloadAfter(line: string, command: string): string
    requires command <= line
  {
    SkipSpaces(line[|command|..])
  }

  function FirstWord(line: string): string {
    if line == "" || line[0] == ' ' then "" else [line[0]] + FirstWord(line[1..])
  }

  /** A line is the command that its first word names, so it is at most one command. */
  lemma {:induction false} MatchesFirstWord(line: string, command: string)
    requires ' ' !in command
    ensures Matches(line, command) <==> FirstWord(line) == command
    decreases line
  {
    if command == "" || line == "" {
    } else if line[0] == command[0] {
      MatchesFirstWord(line[1..], command[1..]);
      assert command == [command[0]] + command[1..];
      assert command <= line <==> command[1..] <= line[1..];
    }
  }

  /** A payload comes back out of its command line exactly if it does not begin with a space. */
  lemma PayloadSurvives(command: string, payload: string)
    requires payload != ""
    ensures Matches(command + " " + payload, command)
    ensures PayloadAfter(command + " " + payload, command) == payload <==> payload[0] != ' '
  {
    var line := command + " " + payload;
    assert line[..|command|] == command && line[|command|..] == " " + payload;
    assert (" " + payload)[1..] == payload;
    SkipShortens(payload);
  }

  lemma {:induction false} SkipShortens(text: string)
    ensures |SkipSpaces(text)| <= |text|
    ensures text != "" && text[0] == ' ' ==> |SkipSpaces(text)| < |text|
  {
    if text != "" && text[0] == ' ' {
      SkipShortens(text[1..]);
    }
  }
}
