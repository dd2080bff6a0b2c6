/** The output of a child process, collected from chunks into bounded lines and a bounded prefix. */
module ProcessOutput {
  import opened OutputRuns

  function Cut(text: string, maximum: nat): string { if |text| <= maximum then text else text[..maximum] }

  /** The lines as the handler gets them; what is empty then is not looked at. */
  function CutLines(lines: seq<string>, maximum: nat): seq<string> {
    if lines == [] then []
    else
      var last := Cut(lines[|lines| - 1], maximum);
      CutLines(lines[..|lines| - 1], maximum) + if last == "" then [] else [last]
  }

  lemma CutLinesSnoc(lines: seq<string>, line: string, maximum: nat)
    ensures CutLines(lines + [line], maximum)
            == CutLines(lines, maximum) + if Cut(line, maximum) == "" then [] else [Cut(line, maximum)]
  {
    assert (lines + [line])[..|lines|] == lines;
  }

  /** With a positive limit no line is lost: they are delivered one for one. */
  lemma {:induction false} CutLinesPointwise(lines: seq<string>, maximum: nat)
    requires maximum > 0 && forall i :: 0 <= i < |lines| ==> lines[i] != ""
    ensures |CutLines(lines, maximum)| == |lines|
    ensures forall i :: 0 <= i < |lines| ==> CutLines(lines, maximum)[i] == Cut(lines[i], maximum)
  {
    if lines != [] {
      CutLinesPointwise(lines[..|lines| - 1], maximum);
    }
  }

  function NonEmpty(lines: seq<string>): seq<string> {
    if lines == [] then []
    else NonEmpty(lines[..|lines| - 1]) + if lines[|lines| - 1] == "" then [] else [lines[|lines| - 1]]
  }

  lemma NonEmptySnoc(lines: seq<string>, line: string)
    ensures NonEmpty(lines + [line]) == NonEmpty(lines) + if line == "" then [] else [line]
  {
    assert (lines + [line])[..|lines|] == lines;
  }

  predicate SomeLong(lines: seq<string>, maximum: nat) {
    exists i :: 0 <= i < |lines| && |lines[i]| > maximum
  }

  lemma SomeLongSnoc(lines: seq<string>, line: string, maximum: nat)
    ensures SomeLong(lines + [line], maximum) <==> SomeLong(lines, maximum) || |line| > maximum
  {
    var all := lines + [line];
    if SomeLong(lines, maximum) {
      var i :| 0 <= i < |lines| && |lines[i]| > maximum;
      assert all[i] == lines[i];
    }
    assert all[|lines|] == line;
  }

  lemma CutUnbroken(text: string, maximum: nat)
    requires Unbroken(text)
    ensures Unbroken(Cut(text, maximum))
  {
  }

  lemma CutOfCut(head: string, more: string, maximum: nat)
    ensures Cut(Cut(head, maximum) + more, maximum) == Cut(head + more, maximum)
    ensures |head| <= maximum ==> Cut(head, maximum) + more == head + more
  {
  }

  /** What the handler was given, and what is still held back, for a reading of the stream. */
  ghost predicate Reports(delivered: seq<string>, pending: string, r: Reading, maximum: nat) {
    NonEmpty(delivered) == CutLines(r.lines, maximum) && pending == Cut(r.tail, maximum)
  }

  ghost predicate LinesCut(r: Reading, maximum: nat) { SomeLong(r.lines, maximum) || |r.tail| > maximum }

  /** One line is ended: what was pending is delivered cut. */
  lemma LineDelivered(delivered: seq<string>, r: Reading, text: string, maximum: nat)
    requires NonEmpty(delivered) == CutLines(r.lines, maximum)
    ensures NonEmpty(delivered + [Cut(Cut(r.tail, maximum) + text, maximum)])
            == CutLines(Ended(r.(tail := r.tail + text)).lines, maximum)
  {
    var line := r.tail + text;
    CutOfCut(r.tail, text, maximum);
    NonEmptySnoc(delivered, Cut(line, maximum));
    CutLinesSnoc(r.lines, line, maximum);
  }

  /** Something was cut exactly if it was before, or what is pending now is too long. */
  lemma LongLineNoticed(r: Reading, text: string, maximum: nat)
    ensures LinesCut(r.(tail := r.tail + text), maximum)
            <==> LinesCut(r, maximum) || |Cut(r.tail, maximum) + text| > maximum
  {
  }

  lemma EndedKeepsCut(r: Reading, maximum: nat)
    ensures LinesCut(Ended(r), maximum) <==> LinesCut(r, maximum)
  {
    SomeLongSnoc(r.lines, r.tail, maximum);
  }

  class OutputCollector {
    const maxLineBytes: nat
    const maxOutputBytes: nat
    const hasLineHandler: bool
    var pendingLine: string
    var output: string
    var truncated: bool
    /** Everything read so far, and every line the handler was given. */
    ghost var stream: string
    ghost var delivered: seq<string>

    constructor (maxLineBytes: nat, maxOutputBytes: nat, hasLineHandler: bool)
      ensures Valid() && stream == "" && delivered == []
      ensures this.maxLineBytes == maxLineBytes && this.maxOutputBytes == maxOutputBytes
      ensures this.hasLineHandler == hasLineHandler
    {
      this.maxLineBytes, this.maxOutputBytes, this.hasLineHandler := maxLineBytes, maxOutputBytes, hasLineHandler;
      pendingLine, output, truncated, stream, delivered := "", "", false, "", [];
    }

    ghost predicate Valid()
      reads this
    {
      && (if hasLineHandler then Reports(delivered, pendingLine, ReadOn(START, stream), maxLineBytes)
          else delivered == [] && pendingLine == "")
      && output == Cut(stream, maxOutputBytes)
      && (truncated <==>
            |stream| > maxOutputBytes || (hasLineHandler && LinesCut(ReadOn(START, stream), maxLineBytes)))
    }

    /** What is pending is a cut tail and the unread rest of the data. */
    ghost predicate Splitting(r: Reading, rest: string, cutBefore: bool)
      reads this
    {
      && hasLineHandler && Unbroken(r.tail)
      && NonEmpty(delivered) == CutLines(r.lines, maxLineBytes)
      && pendingLine == Cut(r.tail, maxLineBytes) + rest
      && (truncated <==> cutBefore || LinesCut(r, maxLineBytes))
    }

    /** Takes the line that ends at the first break, and drops the break. */
    method TakeLine(newline: nat) returns (line: string, eraseCount: nat)
      requires newline < |pendingLine| && IsBreak(pendingLine[newline])
      modifies this`pendingLine, this`truncated
      ensures line == Cut(old(pendingLine)[..newline], maxLineBytes)
      ensures truncated <==> old(truncated) || newline > maxLineBytes
      ensures eraseCount == 1
              || (eraseCount == 2 && newline + 1 < |old(pendingLine)| && IsBreak(old(pendingLine)[newline + 1]))
      ensures pendingLine == old(pendingLine)[newline + eraseCount..]
    {
      var delimiter := pendingLine[newline];
      var lineSize := if newline <= maxLineBytes then newline else maxLineBytes;
      line := pendingLine[..lineSize];
      assert pendingLine[..newline][..lineSize] == line;
      eraseCount := 1;
      if delimiter == '\r' && newline + 1 < |pendingLine| && pendingLine[newline + 1] == '\n' {
        eraseCount := 2;
      }
      pendingLine := pendingLine[newline + eraseCount..];
      if lineSize < newline {
        truncated := true;
      }
    }

    method DeliverLine(newline: nat, ghost r: Reading, ghost rest: string, ghost cutBefore: bool)
      returns (ghost next: Reading, ghost unread: string)
      requires Splitting(r, rest, cutBefore) && newline < |pendingLine|
      requires IsBreak(pendingLine[newline]) && UnbrokenTo(pendingLine, newline)
      modifies this`pendingLine, this`truncated, this`delivered
      ensures Splitting(next, unread, cutBefore) && |unread| < |rest|
      ensures ReadOn(r, rest) == ReadOn(next, unread)
    {
      ghost var given, pending := delivered, pendingLine;
      var line, eraseCount := TakeLine(newline);
      next, unread := LineEnds(given, r, rest, pending, newline, eraseCount, maxLineBytes);
      delivered := delivered + [line];
    }

    /** Splits what is pending together with the new data; `before` is the reading up to the data. */
    method SplitLines(ghost before: Reading, data: string)
      requires Splitting(before, "", truncated)
      modifies this`pendingLine, this`truncated, this`delivered
      ensures Reports(delivered, pendingLine, ReadOn(before, data), maxLineBytes)
      ensures truncated <==> old(truncated) || LinesCut(ReadOn(before, data), maxLineBytes)
    {
      pendingLine := pendingLine + data;
      ghost var r, rest := before, data;
      var newline: nat := FirstBreak(pendingLine);
      while newline < |pendingLine|
        invariant Splitting(r, rest, old(truncated)) && ReadOn(before, data) == ReadOn(r, rest)
        invariant newline <= |pendingLine| && UnbrokenTo(pendingLine, newline)
        invariant newline < |pendingLine| ==> IsBreak(pendingLine[newline])
        decreases |rest|
      {
        r, rest := DeliverLine(newline, r, rest, old(truncated));
        newline := FirstBreak(pendingLine);
      }
      RestIsTail(r, rest, pendingLine, maxLineBytes);
      if |pendingLine| > maxLineBytes {
        pendingLine := pendingLine[..maxLineBytes];
        truncated := true;
      }
    }

    /** The stored output, as far as it has room. */
    method StoreOutput(data: string)
      requires output == Cut(stream, maxOutputBytes)
      modifies this`output, this`truncated
      ensures output == Cut(stream + data, maxOutputBytes)
      ensures truncated <==> old(truncated) || (data != "" && |stream + data| > maxOutputBytes)
    {
      var available := if |output| < maxOutputBytes then maxOutputBytes - |output| else 0;
      var copySize := if |data| <= available then |data| else available;
      if copySize > 0 {
        output := output + data[..copySize];
      }
      if copySize < |data| {
        truncated := true;
      }
    }

    /** One chunk, however the stream was cut. */
    method AppendOutput(data: string)
      requires Valid()
      modifies this`pendingLine, this`output, this`truncated, this`stream, this`delivered
      ensures Valid() && stream == old(stream) + data
    {
      ghost var before := ReadOn(START, stream);
      ReadAppend(START, stream, data);
      ReadTailUnbroken(START, stream);
      if hasLineHandler {
        CutStaysCut(before, data, maxLineBytes);
        SplitLines(before, data);
      }
      StoreOutput(data);
      stream := stream + data;
    }

    method FlushPendingLine(ghost r: Reading)
      requires hasLineHandler && Reports(delivered, pendingLine, r, maxLineBytes) && Unbroken(r.tail)
      modifies this`pendingLine, this`delivered
      ensures NonEmpty(delivered) == CutLines(Ended(r).lines, maxLineBytes) && pendingLine == ""
    {
      if pendingLine == "" {
        NothingToFlush(r, maxLineBytes);
        return;
      }
      if pendingLine[|pendingLine| - 1] == '\r' {
        pendingLine := pendingLine[..|pendingLine| - 1];
      }
      LineDelivered(delivered, r, "", maxLineBytes);
      assert r.tail + "" == r.tail && Cut(r.tail, maxLineBytes) + "" == pendingLine;
      delivered := delivered + [pendingLine];
      pendingLine := "";
    }

    /**
     After the stream has ended: the nonempty lines delivered are its runs, each cut to the limit, in order.
     Neither that nor the rest depends on how the stream was cut into chunks.
     */
    method Flush()
      requires Valid()
      modifies this`pendingLine, this`delivered
      ensures hasLineHandler ==> NonEmpty(delivered) == CutLines(RunTexts(stream), maxLineBytes)
      ensures output == Cut(stream, maxOutputBytes) && pendingLine == ""
      ensures truncated <==> |stream| > maxOutputBytes || (hasLineHandler && HasLongRun(stream, maxLineBytes))
    {
      LongRuns(stream, maxLineBytes);
      if hasLineHandler {
        FlushStream();
      }
    }

    method FlushStream()
      requires hasLineHandler && Reports(delivered, pendingLine, ReadOn(START, stream), maxLineBytes)
      modifies this`pendingLine, this`delivered
      ensures NonEmpty(delivered) == CutLines(RunTexts(stream), maxLineBytes) && pendingLine == ""
    {
      ReadTailUnbroken(START, stream);
      RunTextsAreRead(stream);
      FlushPendingLine(ReadOn(START, stream));
    }
  }

  ghost predicate HasLongRun(s: string, maximum: nat) {
    exists i: nat, j: nat :: IsRun(s, i, j) && j - i > maximum
  }

  /** Reading on does not undo a cut. */
  lemma {:induction false} CutStaysCut(r: Reading, s: string, maximum: nat)
    ensures LinesCut(r, maximum) ==> LinesCut(ReadOn(r, s), maximum)
    decreases s
  {
    if s != "" {
      EndedKeepsCut(r, maximum);
      CutStaysCut(Step(r, s[0]), s[1..], maximum);
    }
  }

  /** A break at `newline` of what is pending is a break at `k` of what is unread. */
  lemma BreakIsUnread(head: string, rest: string, newline: nat) returns (k: nat)
    requires Unbroken(head) && newline < |head + rest| && IsBreak((head + rest)[newline])
    requires UnbrokenTo(head + rest, newline)
    ensures newline == |head| + k && k < |rest| && IsBreak(rest[k]) && UnbrokenTo(rest, k)
  {
    var all := head + rest;
    assert forall i :: 0 <= i < |head| ==> all[i] == head[i];
    k := newline - |head|;
    assert all[newline] == rest[k];
    forall i | 0 <= i < k
      ensures !IsBreak(rest[i])
    {
      assert all[|head| + i] == rest[i];
    }
  }

  lemma UnreadAfter(head: string, rest: string, k: nat)
    requires k < |rest|
    ensures (head + rest)[..|head| + k] == head + rest[..k]
    ensures (head + rest)[|head| + k + 1..] == rest[k + 1..]
    ensures k + 1 < |rest| ==>
              (head + rest)[|head| + k + 1] == rest[k + 1] && (head + rest)[|head| + k + 2..] == rest[k + 2..]
  {
  }

  /** The reading once the line that a break at k of the unread data ends is complete. */
  lemma NextLine(delivered: seq<string>, r: Reading, rest: string, k: nat, maximum: nat) returns (next: Reading)
    requires NonEmpty(delivered) == CutLines(r.lines, maximum)
    requires k < |rest| && UnbrokenTo(rest, k) && IsBreak(rest[k])
    ensures next.tail == ""
    ensures NonEmpty(delivered + [Cut(Cut(r.tail, maximum) + rest[..k], maximum)]) == CutLines(next.lines, maximum)
    ensures LinesCut(next, maximum) <==> LinesCut(r, maximum) || |Cut(r.tail, maximum) + rest[..k]| > maximum
    ensures ReadOn(r, rest) == ReadOn(next, rest[k + 1..])
    ensures k + 1 < |rest| && IsBreak(rest[k + 1]) ==> ReadOn(r, rest) == ReadOn(next, rest[k + 2..])
  {
    next := Ended(r.(tail := r.tail + rest[..k]));
    ReadThroughBreak(r, rest, k);
    LineDelivered(delivered, r, rest[..k], maximum);
    LongLineNoticed(r, rest[..k], maximum);
    EndedKeepsCut(r.(tail := r.tail + rest[..k]), maximum);
  }

  lemma LineEnds(delivered: seq<string>, r: Reading, rest: string, pending: string, newline: nat, eraseCount: nat,
                 maximum: nat) returns (next: Reading, unread: string)
    requires Unbroken(r.tail) && pending == Cut(r.tail, maximum) + rest && newline < |pending|
    requires IsBreak(pending[newline]) && UnbrokenTo(pending, newline)
    requires NonEmpty(delivered) == CutLines(r.lines, maximum)
    requires eraseCount == 1 || (eraseCount == 2 && newline + 1 < |pending| && IsBreak(pending[newline + 1]))
    ensures next.tail == "" && |unread| < |rest| && ReadOn(r, rest) == ReadOn(next, unread)
    ensures NonEmpty(delivered + [Cut(pending[..newline], maximum)]) == CutLines(next.lines, maximum)
    ensures LinesCut(next, maximum) <==> LinesCut(r, maximum) || newline > maximum
    ensures pending[newline + eraseCount..] == unread == Cut(next.tail, maximum) + unread
  {
    var head := Cut(r.tail, maximum);
    CutUnbroken(r.tail, maximum);
    var k := BreakIsUnread(head, rest, newline);
    UnreadAfter(head, rest, k);
    next := NextLine(delivered, r, rest, k, maximum);
    unread := rest[k + eraseCount..];
  }

  lemma RestIsTail(r: Reading, rest: string, pending: string, maximum: nat)
    requires Unbroken(r.tail) && Unbroken(pending) && pending == Cut(r.tail, maximum) + rest
    ensures ReadOn(r, rest) == r.(tail := r.tail + rest)
    ensures Cut(pending, maximum) == Cut(r.tail + rest, maximum)
    ensures LinesCut(r.(tail := r.tail + rest), maximum) <==> LinesCut(r, maximum) || |pending| > maximum
  {
    forall i | 0 <= i < |rest|
      ensures !IsBreak(rest[i])
    {
      assert pending[|Cut(r.tail, maximum)| + i] == rest[i];
    }
    ReadUnbroken(r, rest);
    CutOfCut(r.tail, rest, maximum);
    LongLineNoticed(r, rest, maximum);
  }

  // ---------------------------------------------------------------- what was read is the runs

  lemma RunsInside(s: string)
    ensures Inside(EndedRuns(s), |s|) && Inside(Runs(s), |s|)
  {
    EndedRunsInside(s);
  }

  function RunTexts(s: string): seq<string> {
    RunsInside(s);
    Texts(s, Runs(s))
  }

  lemma RunTextsAreRead(s: string)
    ensures RunTexts(s) == Ended(ReadOn(START, s)).lines
  {
    RunsInside(s);
    ReadingIsRuns(s);
    var start, ended := TailStart(s), EndedRuns(s);
    var r := Reading(Texts(s, ended), s[start..]);
    assert ReadOn(START, s) == r;
    if start < |s| {
      TextsSnoc(s, ended, Span(start, |s|));
      assert s[start..|s|] == s[start..];
      assert Ended(r).lines == Texts(s, ended) + [s[start..]];
    } else {
      assert Ended(r).lines == Texts(s, ended);
    }
  }

  lemma NothingToFlush(r: Reading, maximum: nat)
    requires Cut(r.tail, maximum) == ""
    ensures CutLines(Ended(r).lines, maximum) == CutLines(r.lines, maximum)
  {
    CutLinesSnoc(r.lines, r.tail, maximum);
  }

  lemma LongTextIsLongRun(s: string, k: nat, maximum: nat)
    requires k < |RunTexts(s)| && |RunTexts(s)[k]| > maximum
    ensures HasLongRun(s, maximum)
  {
    RunsInside(s);
    var span := Runs(s)[k];
    TextsAt(s, Runs(s), k);
    RunsExact(s, span.from, span.to);
    assert IsRun(s, span.from, span.to);
  }

  lemma LongRunIsLongText(s: string, i: nat, j: nat, maximum: nat)
    requires IsRun(s, i, j) && j - i > maximum
    ensures SomeLong(RunTexts(s), maximum)
  {
    RunsInside(s);
    RunsExact(s, i, j);
    var k :| 0 <= k < |Runs(s)| && Runs(s)[k] == Span(i, j);
    TextsAt(s, Runs(s), k);
    assert |RunTexts(s)[k]| > maximum;
  }

  /** A line was cut exactly if the stream has a run that is too long. */
  lemma LongRuns(s: string, maximum: nat)
    ensures LinesCut(ReadOn(START, s), maximum) <==> HasLongRun(s, maximum)
  {
    EndedKeepsCut(ReadOn(START, s), maximum);
    RunTextsAreRead(s);
    if SomeLong(RunTexts(s), maximum) {
      var k :| 0 <= k < |RunTexts(s)| && |RunTexts(s)[k]| > maximum;
      LongTextIsLongRun(s, k, maximum);
    }
    if HasLongRun(s, maximum) {
      var i: nat, j: nat :| IsRun(s, i, j) && j - i > maximum;
      LongRunIsLongText(s, i, j, maximum);
    }
  }

  method FirstBreak(text: string) returns (position: nat)
    ensures position <= |text| && UnbrokenTo(text, position)
    ensures position < |text| ==> IsBreak(text[position])
  {
    position := 0;
    while position < |text| && !IsBreak(text[position])
      invariant position <= |text| && UnbrokenTo(text, position)
    {
      position := position + 1;
    }
  }
}
