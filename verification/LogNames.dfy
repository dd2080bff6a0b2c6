/** Log file names: formatting numbers into them, telling them apart, and ordering them. */
module LogNames {
  const K_LOG_FILE_PREFIX := "factory-test-"
  const K_LOG_FILE_SUFFIX := ".log"

  predicate HasPrefixAndSuffix(name: string) {
    && |K_LOG_FILE_PREFIX| + |K_LOG_FILE_SUFFIX| <= |name|
    && K_LOG_FILE_PREFIX <= name && name[|name| - |K_LOG_FILE_SUFFIX|..] == K_LOG_FILE_SUFFIX
  }

  function Digit(n: nat): char
    requires n < 10
  {
    '0' + n as char
  }

  function DigitValue(c: char): int { c as int - '0' as int }

  function Decimal(n: nat): (text: string)
    ensures text != ""
  {
    if n < 10 then [Digit(n)] else Decimal(n / 10) + [Digit(n % 10)]
  }

  function Value(text: string): int {
    if text == "" then 0 else Value(text[..|text| - 1]) * 10 + DigitValue(text[|text| - 1])
  }

  lemma ValueSnoc(text: string, c: char)
    ensures Value(text + [c]) == Value(text) * 10 + DigitValue(c)
  {
    assert (text + [c])[..|text|] == text;
  }

  lemma {:induction false} DecimalReadsBack(n: nat)
    ensures Value(Decimal(n)) == n
  {
    if n < 10 {
      ValueSnoc("", Digit(n));
      assert "" + [Digit(n)] == Decimal(n);
    } else {
      DecimalReadsBack(n / 10);
      ValueSnoc(Decimal(n / 10), Digit(n % 10));
    }
  }

  /** {:03d} */
  function Padded(text: string, zeros: nat): string
    decreases zeros
  {
    if zeros == 0 then text else "0" + Padded(text, zeros - 1)
  }

  function PartNumber(n: nat): string {
    var text := Decimal(n);
    Padded(text, if |text| < 3 then 3 - |text| else 0)
  }

  lemma {:induction false} LeadingZero(text: string)
    ensures Value("0" + text) == Value(text)
    decreases |text|
  {
    if text == "" {
      ValueSnoc("", '0');
      assert "" + "0" == "0" + "";
    } else {
      var front, last := text[..|text| - 1], text[|text| - 1];
      LeadingZero(front);
      ValueSnoc("0" + front, last);
      assert "0" + front + [last] == "0" + text;
    }
  }

  lemma {:induction false} PaddingKeepsValue(text: string, zeros: nat)
    ensures Value(Padded(text, zeros)) == Value(text)
    decreases zeros
  {
    if zeros > 0 {
      PaddingKeepsValue(text, zeros - 1);
      LeadingZero(Padded(text, zeros - 1));
    }
  }

  lemma PartNumberReadsBack(n: nat)
    ensures Value(PartNumber(n)) == n
  {
    DecimalReadsBack(n);
    PaddingKeepsValue(Decimal(n), if |Decimal(n)| < 3 then 3 - |Decimal(n)| else 0);
  }

  function SegmentName(runName: string, part: nat): string {
    runName + "-part" + PartNumber(part) + K_LOG_FILE_SUFFIX
  }

  function CollisionRunName(base: string, collision: nat): string {
    if collision == 0 then base else base + "-c" + Decimal(collision)
  }

  lemma SameTail(a: string, b: string, tail: string)
    requires a + tail == b + tail
    ensures a == b
  {
    assert |a| == |b|;
    assert (a + tail)[..|a|] == a && (b + tail)[..|b|] == b;
  }

  lemma SameHead(head: string, a: string, b: string)
    requires head + a == head + b
    ensures a == b
  {
    assert (head + a)[|head|..] == a && (head + b)[|head|..] == b;
  }

  lemma PartsDiffer(runName: string, i: nat, j: nat)
    requires SegmentName(runName, i) == SegmentName(runName, j)
    ensures i == j
  {
    SameTail(runName + "-part" + PartNumber(i), runName + "-part" + PartNumber(j), K_LOG_FILE_SUFFIX);
    SameHead(runName + "-part", PartNumber(i), PartNumber(j));
    PartNumberReadsBack(i);
    PartNumberReadsBack(j);
  }

  lemma RunNamesDiffer(base: string, i: nat, j: nat)
    requires CollisionRunName(base, i) == CollisionRunName(base, j)
    ensures i == j
  {
    if i > 0 && j > 0 {
      SameHead(base + "-c", Decimal(i), Decimal(j));
      DecimalReadsBack(i);
      DecimalReadsBack(j);
    } else {
      assert i > 0 ==> |CollisionRunName(base, i)| > |base|;
      assert j > 0 ==> |CollisionRunName(base, j)| > |base|;
    }
  }

  lemma RunsDiffer(a: string, b: string, part: nat)
    requires SegmentName(a, part) == SegmentName(b, part)
    ensures a == b
  {
    SameTail(a + "-part" + PartNumber(part), b + "-part" + PartNumber(part), K_LOG_FILE_SUFFIX);
    SameTail(a + "-part", b + "-part", PartNumber(part));
    SameTail(a, b, "-part");
  }

  /** The i-th name that is tried for a segment: the first segment varies the run, later ones the part. */
  function Candidate(runName: string, segmentIndex: nat, i: nat): string {
    if segmentIndex == 0 then SegmentName(CollisionRunName(runName, i), 0) else SegmentName(runName, segmentIndex + i)
  }

  /** No name is tried twice. */
  lemma CandidatesDiffer(runName: string, segmentIndex: nat, i: nat, j: nat)
    requires Candidate(runName, segmentIndex, i) == Candidate(runName, segmentIndex, j)
    ensures i == j
  {
    if segmentIndex == 0 {
      RunsDiffer(CollisionRunName(runName, i), CollisionRunName(runName, j), 0);
      RunNamesDiffer(runName, i, j);
    } else {
      PartsDiffer(runName, segmentIndex + i, segmentIndex + j);
    }
  }

  function Tried(runName: string, segmentIndex: nat, n: nat): set<string> {
    set i | 0 <= i < n :: Candidate(runName, segmentIndex, i)
  }

  lemma LastIsNew(runName: string, segmentIndex: nat, n: nat)
    ensures Candidate(runName, segmentIndex, n) !in Tried(runName, segmentIndex, n)
  {
    forall i | 0 <= i < n
      ensures Candidate(runName, segmentIndex, i) != Candidate(runName, segmentIndex, n)
    {
      if Candidate(runName, segmentIndex, i) == Candidate(runName, segmentIndex, n) {
        CandidatesDiffer(runName, segmentIndex, i, n);
      }
    }
  }

  /** So at most as many names can be taken as there are files, and the search ends. */
  lemma {:induction false} TriedAreMany(runName: string, segmentIndex: nat, n: nat)
    ensures |Tried(runName, segmentIndex, n)| == n
  {
    if n > 0 {
      TriedAreMany(runName, segmentIndex, n - 1);
      LastIsNew(runName, segmentIndex, n - 1);
      assert Tried(runName, segmentIndex, n)
          == Tried(runName, segmentIndex, n - 1) + {Candidate(runName, segmentIndex, n - 1)};
    }
  }

  lemma SubsetSize(a: set<string>, b: set<string>)
    requires a <= b
    ensures |a| <= |b|
    decreases |a|
  {
    if a != {} {
      var x :| x in a;
      SubsetSize(a - {x}, b - {x});
    }
  }

  lemma SearchIsBounded(runName: string, segmentIndex: nat, n: nat, names: set<string>)
    requires forall i :: 0 <= i < n ==> Candidate(runName, segmentIndex, i) in names
    ensures n <= |names|
  {
    TriedAreMany(runName, segmentIndex, n);
    SubsetSize(Tried(runName, segmentIndex, n), names);
  }

  // ---------------------------------------------------------------- order

  predicate LexLess(a: string, b: string) {
    if a == "" || b == "" then a == "" && b != ""
    else a[0] < b[0] || (a[0] == b[0] && LexLess(a[1..], b[1..]))
  }

  lemma {:induction false} LexTotal(a: string, b: string)
    ensures a != b ==> (LexLess(a, b) <==> !LexLess(b, a))
    decreases |a|
  {
    if a != "" && b != "" && a[0] == b[0] {
      LexTotal(a[1..], b[1..]);
      assert a == [a[0]] + a[1..] && b == [b[0]] + b[1..];
    }
  }

  lemma {:induction false} LexIrreflexive(a: string)
    ensures !LexLess(a, a)
  {
    if a != "" {
      LexIrreflexive(a[1..]);
    }
  }

  lemma {:induction false} LexTransitive(a: string, b: string, c: string)
    requires LexLess(a, b) && LexLess(b, c)
    ensures LexLess(a, c)
    decreases |a|
  {
    if a != "" && a[0] == b[0] == c[0] {
      LexTransitive(a[1..], b[1..], c[1..]);
    }
  }
}
