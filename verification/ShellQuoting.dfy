/** Writing a command line so that a shell reads the same words back (POSIX.1-2017 XCU, section 2.2). */
module ShellQuoting {
  const K_QUOTE_TRIGGERS := " \t\n\"'\\$`!&|;<>()[]{}*"

  predicate HasTrigger(arg: string) { exists i :: 0 <= i < |arg| && arg[i] in K_QUOTE_TRIGGERS }

  function QuotedBody(arg: string): string {
    if arg == "" then ""
    else QuotedBody(arg[..|arg| - 1]) + if arg[|arg| - 1] == '\'' then "'\\''" else [arg[|arg| - 1]]
  }

  function Quoted(arg: string): string {
    if arg == "" then "''" else if !HasTrigger(arg) then arg else "'" + QuotedBody(arg) + "'"
  }

  method QuoteArg(arg: string) returns (quoted: string)
    ensures quoted == Quoted(arg)
  {
    if arg == "" {
      return "''";
    }
    if !HasTrigger(arg) {
      return arg;
    }
    quoted := "'";
    for i := 0 to |arg|
      invariant quoted == "'" + QuotedBody(arg[..i])
    {
      assert arg[..i + 1][..i] == arg[..i];
      if arg[i] == '\'' {
        quoted := quoted + "'\\''";
      } else {
        quoted := quoted + [arg[i]];
      }
    }
    assert arg[..|arg|] == arg;
    quoted := quoted + "'";
  }

  /** The words with a space between them. */
  function CommandText(words: seq<string>): string
    requires words != []
  {
    if |words| == 1 then Quoted(words[0]) else CommandText(words[..|words| - 1]) + " " + Quoted(words[|words| - 1])
  }

  method CommandToString(executable: string, args: seq<string>) returns (text: string)
    ensures text == CommandText([executable] + args)
  {
    ghost var words := [executable] + args;
    text := QuoteArg(executable);
    assert words[..1] == [executable];
    for i := 0 to |args|
      invariant text == CommandText(words[..i + 1])
    {
      CommandTextStep(words, i + 1);
      var word := QuoteArg(args[i]);
      text := text + " " + word;
    }
    assert words[..|words|] == words;
  }

  lemma CommandTextStep(words: seq<string>, n: nat)
    requires 0 < n < |words|
    ensures CommandText(words[..n + 1]) == CommandText(words[..n]) + " " + Quoted(words[n])
  {
    assert words[..n + 1][..n] == words[..n];
  }

  // ---------------------------------------------------------------- what a shell makes of it

  datatype Quoting = Bare | Single | Escaped

  /** Broken: the text means something else than the words written in it. */
  datatype Reader = Broken | Reader(words: seq<string>, word: seq<string>, quoting: Quoting)

  /** `word` holds the word being read, if one has begun. */
  function Extend(r: Reader, c: char): Reader
    requires r.Reader?
  {
    r.(word := [(if r.word == [] then "" else r.word[0]) + [c]], quoting := if r.quoting == Single then Single else Bare)
  }

  predicate Operator(c: char) { c in "|&;<>()$`\"\n*?[" }

  function Step(r: Reader, c: char): Reader {
    if r.Broken? then Broken
    else match r.quoting
      case Single => if c == '\'' then r.(quoting := Bare) else Extend(r, c)
      case Escaped => Extend(r, c)
      case Bare =>
        if c == ' ' || c == '\t' then r.(words := r.words + r.word, word := [])
        else if c == '\'' then r.(word := if r.word == [] then [""] else r.word, quoting := Single)
        else if c == '\\' then r.(word := if r.word == [] then [""] else r.word, quoting := Escaped)
        else if Operator(c) || (r.word == [] && (c == '~' || c == '#')) then Broken
        else Extend(r, c)
  }

  function Read(r: Reader, text: string): Reader {
    if text == "" then r else Step(Read(r, text[..|text| - 1]), text[|text| - 1])
  }

  const START := Reader([], [], Bare)

  /** The shell sees exactly these words. */
  predicate ReadsAs(text: string, words: seq<string>) { Means(Read(START, text), words) }

  predicate Means(r: Reader, words: seq<string>) { r.Reader? && r.quoting == Bare && r.words + r.word == words }

  lemma ReadSnoc(r: Reader, text: string, c: char)
    ensures Read(r, text + [c]) == Step(Read(r, text), c)
  {
    assert (text + [c])[..|text|] == text;
  }

  lemma {:induction false} ReadAppend(r: Reader, a: string, b: string)
    ensures Read(r, a + b) == Read(Read(r, a), b)
  {
    if b == "" {
      assert a + b == a;
    } else {
      var front, last := b[..|b| - 1], b[|b| - 1];
      ReadAppend(r, a, front);
      assert a + b == a + front + [last];
      ReadSnoc(r, a + front, last);
    }
  }

  lemma {:induction false} BrokenStays(text: string)
    ensures Read(Broken, text) == Broken
  {
    if text != "" {
      BrokenStays(text[..|text| - 1]);
    }
  }

  /** Between the quotes every character stands for itself, and '\'' for a quote. */
  lemma {:induction false} BodyReads(r: Reader, arg: string)
    requires r.Reader? && r.quoting == Single && r.word == [""]
    ensures Read(r, QuotedBody(arg)) == r.(word := [arg])
  {
    if arg != "" {
      var front, last := arg[..|arg| - 1], arg[|arg| - 1];
      var inside := r.(word := [front]);
      BodyReads(r, front);
      assert front + [last] == arg;
      if last == '\'' {
        ReadAppend(r, QuotedBody(front), "'\\''");
        EscapedQuoteReads(inside);
      } else {
        ReadSnoc(r, QuotedBody(front), last);
      }
    }
  }

  lemma ReadPair(r: Reader, a: char, b: char)
    ensures Read(r, [a, b]) == Step(Step(r, a), b)
  {
    ReadSnoc(r, "", a);
    ReadSnoc(r, [a], b);
    assert "" + [a] == [a] && [a] + [b] == [a, b];
  }

  lemma EscapedQuoteReads(r: Reader)
    requires r.Reader? && r.quoting == Single && |r.word| == 1
    ensures Read(r, "'\\''") == r.(word := [r.word[0] + "'"])
  {
    ReadPair(r, '\'', '\\');
    ReadPair(r.(quoting := Escaped), '\'', '\'');
    ReadAppend(r, ['\'', '\\'], ['\'', '\'']);
    assert "'\\''" == ['\'', '\\'] + ['\'', '\''];
  }

  /** Characters that mean something to a shell although they do not make the word quoted. */
  predicate Overlooked(arg: string) {
    arg != "" && !HasTrigger(arg) && (arg[0] == '~' || arg[0] == '#' || '?' in arg)
  }

  lemma {:induction false} PlainReads(r: Reader, arg: string)
    requires r.Reader? && r.quoting == Bare && r.word == [] && arg != "" && !HasTrigger(arg)
    ensures Read(r, arg) == if Overlooked(arg) then Broken else r.(word := [arg])
  {
    var front, last := arg[..|arg| - 1], arg[|arg| - 1];
    assert last !in K_QUOTE_TRIGGERS;
    TriggersCoverOperators(last);
    assert arg == front + [last];
    assert '?' in arg <==> '?' in front || last == '?';
    if front == "" {
      assert arg == "" + [last] && Read(r, "") == r;
    } else {
      assert forall i :: 0 <= i < |front| ==> front[i] == arg[i];
      PlainReads(r, front);
    }
  }

  lemma TriggersCoverOperators(c: char)
    requires c !in K_QUOTE_TRIGGERS
    ensures c != ' ' && c != '\t' && c != '\'' && c != '\\'
    ensures Operator(c) <==> c == '?'
  {
    assert ' ' in K_QUOTE_TRIGGERS && '\t' in K_QUOTE_TRIGGERS && '\'' in K_QUOTE_TRIGGERS && '\\' in K_QUOTE_TRIGGERS;
    assert forall k :: 0 <= k < |"|&;<>()$`\"\n*["| ==> "|&;<>()$`\"\n*["[k] in K_QUOTE_TRIGGERS;
  }

  /** One written word is read as that word unless it was overlooked. */
  lemma WordReads(r: Reader, arg: string)
    requires r.Reader? && r.quoting == Bare && r.word == []
    ensures Read(r, Quoted(arg)) == if Overlooked(arg) then Broken else r.(word := [arg])
  {
    if arg == "" || HasTrigger(arg) {
      var opening := r.(word := [""], quoting := Single);
      ReadSnoc(r, "", '\'');
      assert "" + ['\''] == "'";
      BodyReads(opening, arg);
      ReadAppend(r, "'", QuotedBody(arg));
      ReadSnoc(r, "'" + QuotedBody(arg), '\'');
      assert arg == "" ==> "'" + QuotedBody(arg) + ['\''] == "''";
    } else {
      PlainReads(r, arg);
    }
  }

  predicate NoneOverlooked(words: seq<string>) { forall i :: 0 <= i < |words| ==> !Overlooked(words[i]) }

  lemma NextWordReads(r: Reader, arg: string)
    requires r.Reader? && r.quoting == Bare && |r.word| == 1
    ensures Read(r, " " + Quoted(arg)) == if Overlooked(arg) then Broken else Reader(r.words + r.word, [arg], Bare)
  {
    ReadAppend(r, " ", Quoted(arg));
    ReadSnoc(r, "", ' ');
    assert "" + [' '] == " ";
    WordReads(Reader(r.words + r.word, [], Bare), arg);
  }

  lemma NoneOverlookedSnoc(words: seq<string>, last: string)
    ensures NoneOverlooked(words + [last]) <==> NoneOverlooked(words) && !Overlooked(last)
  {
    var all := words + [last];
    assert all[|words|] == last && forall i :: 0 <= i < |words| ==> all[i] == words[i];
  }

  /** The reader after a whole command line of these words. */
  function AfterCommand(words: seq<string>): Reader
    requires words != []
  {
    if NoneOverlooked(words) then Reader(words[..|words| - 1], [words[|words| - 1]], Bare) else Broken
  }

  lemma AfterOneMore(front: seq<string>, last: string)
    requires front != []
    ensures Read(AfterCommand(front), " " + Quoted(last)) == AfterCommand(front + [last])
  {
    NoneOverlookedSnoc(front, last);
    if NoneOverlooked(front) {
      NextWordReads(AfterCommand(front), last);
      assert front[..|front| - 1] + [front[|front| - 1]] == front;
    } else {
      BrokenStays(" " + Quoted(last));
    }
  }

  lemma CommandTextSnoc(front: seq<string>, last: string) returns (text: string)
    requires front != []
    ensures text == " " + Quoted(last) && CommandText(front + [last]) == CommandText(front) + text
  {
    text := " " + Quoted(last);
    assert (front + [last])[..|front|] == front;
  }

  lemma {:induction false} CommandReads(words: seq<string>)
    requires words != []
    ensures Read(START, CommandText(words)) == AfterCommand(words)
  {
    var front, last := words[..|words| - 1], words[|words| - 1];
    assert words == front + [last];
    NoneOverlookedSnoc(front, last);
    if front == [] {
      WordReads(START, last);
    } else {
      CommandReads(front);
      AfterOneMore(front, last);
      var text := CommandTextSnoc(front, last);
      ReadAppend(START, CommandText(front), text);
    }
  }

  /**
   A shell reads back exactly the words exactly if none of them is an unquoted word that begins with ~ or
   # or contains ?: those characters are missing from the list that makes a word quoted.
   */
  lemma ReadsBackIffNoneOverlooked(words: seq<string>)
    requires words != []
    ensures ReadsAs(CommandText(words), words) <==> NoneOverlooked(words)
  {
    CommandReads(words);
    AfterCommandMeans(words);
  }

  lemma AfterCommandMeans(words: seq<string>)
    requires words != []
    ensures Means(AfterCommand(words), words) <==> NoneOverlooked(words)
  {
    assert words[..|words| - 1] + [words[|words| - 1]] == words;
  }

  lemma GlobIsOverlooked()
    ensures !ReadsAs(CommandText(["ls", "a?"]), ["ls", "a?"])
  {
    assert "a?"[1] == '?' && ["ls", "a?"][1] == "a?";
    assert Overlooked(["ls", "a?"][1]);
    ReadsBackIffNoneOverlooked(["ls", "a?"]);
  }
}
