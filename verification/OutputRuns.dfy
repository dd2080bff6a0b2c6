/** The lines of a byte stream: the maximal stretches free of carriage return and line feed. */
module OutputRuns {
  predicate IsBreak(c: char) { c == '\r' || c == '\n' }

  predicate Unbroken(text: string) { forall i :: 0 <= i < |text| ==> !IsBreak(text[i]) }

  predicate UnbrokenTo(text: string, n: nat)
    requires n <= |text|
  {
    forall i :: 0 <= i < n ==> !IsBreak(text[i])
  }

  /** s[i..j] is nonempty, has no break inside, and cannot be made longer. */
  predicate IsRun(s: string, i: nat, j: nat) {
    && i < j <= |s| && Unbroken(s[i..j])
    && (i > 0 ==> IsBreak(s[i - 1])) && (j < |s| ==> IsBreak(s[j]))
  }

  datatype Span = Span(from: nat, to: nat)

  function TailStart(s: string): (start: nat)
    ensures start <= |s|
  {
    if s == "" then 0 else if IsBreak(s[|s| - 1]) then |s| else TailStart(s[..|s| - 1])
  }

  /** The runs that a break has ended, in order. */
  function EndedRuns(s: string): seq<Span> {
    if s == "" then []
    else
      var before := s[..|s| - 1];
      if IsBreak(s[|s| - 1]) && TailStart(before) < |before|
      then EndedRuns(before) + [Span(TailStart(before), |before|)]
      else EndedRuns(before)
  }

  /** All runs: also the one that reaches the end. */
  function Runs(s: string): seq<Span> {
    if TailStart(s) < |s| then EndedRuns(s) + [Span(TailStart(s), |s|)] else EndedRuns(s)
  }

  lemma {:induction false} TailIsUnbroken(s: string)
    ensures Unbroken(s[TailStart(s)..])
    ensures TailStart(s) > 0 ==> IsBreak(s[TailStart(s) - 1])
  {
    if s != "" && !IsBreak(s[|s| - 1]) {
      var before := s[..|s| - 1];
      TailIsUnbroken(before);
      assert s[TailStart(s)..] == before[TailStart(before)..] + [s[|s| - 1]];
    }
  }

  lemma RunToEnd(s: string, i: nat)
    requires i < |s|
    ensures IsRun(s, i, |s|) <==> i == TailStart(s)
  {
    TailIsUnbroken(s);
    var start := TailStart(s);
    if i < start {
      assert IsBreak(s[i..|s|][start - 1 - i]);
    } else if i > start {
      assert !IsBreak(s[start..][i - 1 - start]);
    } else {
      assert s[start..] == s[i..|s|];
    }
  }

  lemma RunOfPrefix(s: string, i: nat, j: nat)
    requires s != "" && j < |s|
    ensures j < |s| - 1 ==> (IsRun(s, i, j) <==> IsRun(s[..|s| - 1], i, j))
    ensures j == |s| - 1 ==> (IsRun(s, i, j) <==> IsRun(s[..|s| - 1], i, j) && IsBreak(s[j]))
  {
    if i < j {
      assert s[..|s| - 1][i..j] == s[i..j];
    }
  }

  lemma {:induction false} EndedRunsExact(s: string, i: nat, j: nat)
    ensures Span(i, j) in EndedRuns(s) <==> j < |s| && IsRun(s, i, j)
  {
    if s != "" && j < |s| {
      var before := s[..|s| - 1];
      EndedRunsExact(before, i, j);
      RunOfPrefix(s, i, j);
      if j == |before| && i < j {
        RunToEnd(before, i);
      }
    } else if s != "" {
      EndedRunsExact(s[..|s| - 1], i, j);
    }
  }

  /** The runs listed are exactly the runs there are. */
  lemma RunsExact(s: string, i: nat, j: nat)
    ensures Span(i, j) in Runs(s) <==> IsRun(s, i, j)
  {
    EndedRunsExact(s, i, j);
    if j == |s| && i < j {
      RunToEnd(s, i);
    }
  }

  predicate Ascending(spans: seq<Span>) {
    && (forall k :: 0 <= k < |spans| ==> spans[k].from < spans[k].to)
    && (forall k, l :: 0 <= k < l < |spans| ==> spans[k].to < spans[l].from)
  }

  predicate AllEndBefore(spans: seq<Span>, position: nat) {
    forall k :: 0 <= k < |spans| ==> spans[k].to < position
  }

  lemma {:induction false} EndedRunsAscend(s: string)
    ensures Ascending(EndedRuns(s)) && AllEndBefore(EndedRuns(s), TailStart(s))
  {
    if s != "" {
      EndedRunsAscend(s[..|s| - 1]);
    }
  }

  /** They are listed in the order of the stream. */
  lemma RunsAscend(s: string)
    ensures Ascending(Runs(s))
  {
    EndedRunsAscend(s);
  }

  // ---------------------------------------------------------------- reading the stream byte by byte

  predicate Inside(spans: seq<Span>, size: nat) {
    forall k :: 0 <= k < |spans| ==> spans[k].from <= spans[k].to <= size
  }

  lemma {:induction false} EndedRunsInside(s: string)
    ensures Inside(EndedRuns(s), |s|)
  {
    if s != "" {
      EndedRunsInside(s[..|s| - 1]);
    }
  }

  function Texts(s: string, spans: seq<Span>): (texts: seq<string>)
    requires Inside(spans, |s|)
    ensures |texts| == |spans|
  {
    if spans == [] then []
    else
      var last := spans[|spans| - 1];
      Texts(s, spans[..|spans| - 1]) + [s[last.from..last.to]]
  }

  datatype Reading = Reading(lines: seq<string>, tail: string)

  function Ended(r: Reading): Reading { Reading(if r.tail == "" then r.lines else r.lines + [r.tail], "") }

  function Step(r: Reading, c: char): Reading {
    if IsBreak(c) then Ended(r) else r.(tail := r.tail + [c])
  }

  function ReadOn(r: Reading, s: string): Reading
    decreases s
  {
    if s == "" then r else ReadOn(Step(r, s[0]), s[1..])
  }

  const START := Reading([], "")

  lemma {:induction false} ReadAppend(r: Reading, a: string, b: string)
    ensures ReadOn(r, a + b) == ReadOn(ReadOn(r, a), b)
    decreases a
  {
    if a == "" {
      assert a + b == b;
    } else {
      assert (a + b)[0] == a[0] && (a + b)[1..] == a[1..] + b;
      ReadAppend(Step(r, a[0]), a[1..], b);
    }
  }

  lemma {:induction false} ReadUnbroken(r: Reading, text: string)
    requires Unbroken(text)
    ensures ReadOn(r, text) == r.(tail := r.tail + text)
    decreases text
  {
    if text == "" {
      assert r.tail + text == r.tail;
    } else {
      ReadUnbroken(Step(r, text[0]), text[1..]);
      assert r.tail + [text[0]] + text[1..] == r.tail + text;
    }
  }

  lemma ReadSnoc(r: Reading, s: string, c: char)
    ensures ReadOn(r, s + [c]) == Step(ReadOn(r, s), c)
  {
    ReadAppend(r, s, [c]);
    assert ReadOn(Step(ReadOn(r, s), c), "") == Step(ReadOn(r, s), c);
    assert [c][0] == c && [c][1..] == "";
  }

  lemma {:induction false} ReadTailUnbroken(r: Reading, s: string)
    requires Unbroken(r.tail)
    ensures Unbroken(ReadOn(r, s).tail)
    decreases s
  {
    if s != "" {
      ReadTailUnbroken(Step(r, s[0]), s[1..]);
    }
  }

  /** A break ends the line before it; a second break right after it changes nothing. */
  lemma ReadThroughBreak(r: Reading, s: string, k: nat)
    requires k < |s| && UnbrokenTo(s, k) && IsBreak(s[k])
    ensures ReadOn(r, s) == ReadOn(Ended(r.(tail := r.tail + s[..k])), s[k + 1..])
    ensures k + 1 < |s| && IsBreak(s[k + 1]) ==>
              ReadOn(r, s) == ReadOn(Ended(r.(tail := r.tail + s[..k])), s[k + 2..])
  {
    var ended := Ended(r.(tail := r.tail + s[..k]));
    assert s == s[..k] + s[k..];
    ReadAppend(r, s[..k], s[k..]);
    ReadUnbroken(r, s[..k]);
    assert s[k..][0] == s[k] && s[k..][1..] == s[k + 1..];
    if k + 1 < |s| && IsBreak(s[k + 1]) {
      assert s[k + 1..][0] == s[k + 1] && s[k + 1..][1..] == s[k + 2..];
      assert Ended(ended) == ended;
    }
  }

  /** Reading the whole stream gives the ended runs as lines and the rest as the tail. */
  lemma {:induction false} ReadingIsRuns(s: string)
    ensures Inside(EndedRuns(s), |s|)
    ensures ReadOn(START, s) == RunReading(s)
  {
    EndedRunsInside(s);
    if s != "" {
      var before, c := s[..|s| - 1], s[|s| - 1];
      ReadingIsRuns(before);
      ReadSnoc(START, before, c);
      RunReadingSnoc(before, c);
      assert s == before + [c];
    }
  }

  function RunReading(s: string): Reading {
    EndedRunsInside(s);
    Reading(Texts(s, EndedRuns(s)), s[TailStart(s)..])
  }

  lemma RunReadingSnoc(before: string, c: char)
    ensures RunReading(before + [c]) == Step(RunReading(before), c)
  {
    EndedRunsInside(before);
    if IsBreak(c) {
      BreakReading(before, c);
    } else {
      PlainReading(before, c);
    }
  }

  lemma BreakStep(before: string, c: char)
    requires Inside(EndedRuns(before), |before|) && IsBreak(c)
    ensures TailStart(before + [c]) == |before| + 1
    ensures var start := TailStart(before);
            EndedRuns(before + [c])
            == EndedRuns(before) + if start < |before| then [Span(start, |before|)] else []
  {
    assert (before + [c])[..|before|] == before;
  }

  lemma PlainStep(before: string, c: char)
    requires !IsBreak(c)
    ensures TailStart(before + [c]) == TailStart(before) && EndedRuns(before + [c]) == EndedRuns(before)
  {
    assert (before + [c])[..|before|] == before;
  }

  lemma BreakReading(before: string, c: char)
    requires Inside(EndedRuns(before), |before|) && IsBreak(c)
    ensures Inside(EndedRuns(before + [c]), |before + [c]|)
    ensures Texts(before + [c], EndedRuns(before + [c]))
            == Ended(Reading(Texts(before, EndedRuns(before)), before[TailStart(before)..])).lines
    ensures (before + [c])[TailStart(before + [c])..] == ""
  {
    var s, start, runs := before + [c], TailStart(before), EndedRuns(before);
    BreakStep(before, c);
    TextsOfLonger(before, c, runs);
    if start < |before| {
      TextsSnoc(s, runs, Span(start, |before|));
      assert s[start..|before|] == before[start..];
    }
  }

  lemma PlainReading(before: string, c: char)
    requires Inside(EndedRuns(before), |before|) && !IsBreak(c)
    ensures Inside(EndedRuns(before + [c]), |before + [c]|)
    ensures Texts(before + [c], EndedRuns(before + [c])) == Texts(before, EndedRuns(before))
    ensures (before + [c])[TailStart(before + [c])..] == before[TailStart(before)..] + [c]
  {
    PlainStep(before, c);
    TextsOfLonger(before, c, EndedRuns(before));
  }

  lemma {:induction false} TextsAt(s: string, spans: seq<Span>, k: nat)
    requires Inside(spans, |s|) && k < |spans|
    ensures Texts(s, spans)[k] == s[spans[k].from..spans[k].to]
  {
    if k < |spans| - 1 {
      TextsAt(s, spans[..|spans| - 1], k);
    }
  }

  lemma {:induction false} TextsOfLonger(s: string, c: char, spans: seq<Span>)
    requires Inside(spans, |s|)
    ensures Inside(spans, |s| + 1) && Texts(s + [c], spans) == Texts(s, spans)
  {
    if spans != [] {
      var last := spans[|spans| - 1];
      TextsOfLonger(s, c, spans[..|spans| - 1]);
      assert (s + [c])[last.from..last.to] == s[last.from..last.to];
    }
  }

  lemma TextsSnoc(s: string, spans: seq<Span>, last: Span)
    requires Inside(spans, |s|) && last.from <= last.to <= |s|
    ensures Inside(spans + [last], |s|)
    ensures Texts(s, spans + [last]) == Texts(s, spans) + [s[last.from..last.to]]
  {
    assert (spans + [last])[..|spans|] == spans;
  }
}
