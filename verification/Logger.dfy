/**
 The rotating log: segments under a size limit, oldest-first eviction under a directory budget, and what
 the surviving files hold. There is no other writer in the directory.
 */
module Logger {
  import opened LogNames
  import opened LogDirectory

  const MARKER := "... [truncated]\n"

  /** A beginning of the line, perhaps with a beginning of the marker after it. */
  ghost predicate Shortened(line: string, text: string) {
    exists i, j :: 0 <= i <= |line| && 0 <= j <= |MARKER| && text == line[..i] + MARKER[..j]
  }

  function TruncateLine(line: string, maximum: nat): (text: string)
    ensures |text| == if |line| <= maximum then |line| else maximum
    ensures |line| <= maximum ==> text == line
    ensures |line| > maximum > |MARKER| ==> MARKER == text[maximum - |MARKER|..]
  {
    if |line| <= maximum then line
    else if maximum <= |MARKER| then line[..maximum]
    else line[..maximum - |MARKER|] + MARKER
  }

  lemma TruncationShortens(line: string, maximum: nat)
    ensures Shortened(line, TruncateLine(line, maximum))
  {
    if |line| <= maximum {
      assert line == line[..|line|] + MARKER[..0];
    } else if maximum <= |MARKER| {
      assert line[..maximum] == line[..maximum] + MARKER[..0];
    } else {
      assert MARKER == MARKER[..|MARKER|];
    }
  }

  lemma BeginningIsShortened(line: string, text: string, k: nat)
    requires Shortened(line, text) && k <= |text|
    ensures Shortened(line, text[..k])
  {
    var i, j :| 0 <= i <= |line| && 0 <= j <= |MARKER| && text == line[..i] + MARKER[..j];
    if k <= i {
      assert text[..k] == line[..k] + MARKER[..0];
    } else {
      assert text[..k] == line[..i] + MARKER[..k - i];
    }
  }

  lemma SecondCutWins(line: string, first: nat, second: nat)
    requires |MARKER| < second <= first
    ensures TruncateLine(TruncateLine(line, first), second) == TruncateLine(line, second)
  {
    var once := TruncateLine(line, first);
    if |line| > first {
      assert once[..second - |MARKER|] == line[..second - |MARKER|];
    }
  }

  /** Truncating what was already truncated still leaves a beginning of the line and of the marker. */
  lemma TruncatedTwice(line: string, first: nat, second: nat)
    requires second <= first
    ensures Shortened(line, TruncateLine(TruncateLine(line, first), second))
  {
    var once := TruncateLine(line, first);
    TruncationShortens(line, first);
    TruncationShortens(line, second);
    if second > |MARKER| {
      SecondCutWins(line, first, second);
    } else if |once| > second {
      BeginningIsShortened(line, once, second);
    }
  }

  /** A line cut to a segment, and then to the room that a header has left of it. */
  function Fitted(line: string, segment: nat, room: nat): (text: string)
    requires room <= segment
    ensures Shortened(line, text) && |text| <= room && (|line| <= room ==> text == line)
  {
    TruncatedTwice(line, segment, room);
    TruncateLine(TruncateLine(line, segment), room)
  }

  /** One write: the line it stands for, and what went into the file. */
  datatype Written = Written(line: string, text: string)

  function TextOf(writes: seq<Written>): string {
    if writes == [] then "" else TextOf(writes[..|writes| - 1]) + writes[|writes| - 1].text
  }

  lemma TextOfSnoc(writes: seq<Written>, last: Written)
    ensures TextOf(writes + [last]) == TextOf(writes) + last.text
  {
    assert (writes + [last])[..|writes|] == writes;
  }

  /** The part of the journal that a file holds. */
  datatype Span = Span(from: nat, to: nat)

  predicate IsManaged(files: Directory, currentPath: string, file: ManagedFile) {
    IsRecord(files, file) && HasPrefixAndSuffix(file.name) && file.name != currentPath
  }

  /** Every surviving segment holds one stretch of the journal; no two stretches overlap. */
  ghost predicate Faithful(files: Directory, journal: seq<Written>, spans: map<string, Span>) {
    && (forall name {:trigger Holds(files, journal, name, spans[name])} :: name in spans ==>
          Holds(files, journal, name, spans[name]))
    && (forall a, b {:trigger Apart(spans[a], spans[b])} :: a in spans && b in spans && a != b ==>
          Apart(spans[a], spans[b]))
  }

  predicate Apart(a: Span, b: Span) { a.to <= b.from || b.to <= a.from }

  ghost predicate Holds(files: Directory, journal: seq<Written>, name: string, span: Span) {
    && span.from <= span.to <= |journal| && name in files && files[name].Regular?
    && files[name].content == TextOf(journal[span.from..span.to])
  }

  /** What is still known once only these files are left. */
  predicate Pruned(was: map<string, Span>, left: Directory, spans: map<string, Span>) {
    spans.Keys <= was.Keys && forall name :: name in was && name in left ==> name in spans && spans[name] == was[name]
  }

  datatype FileLogConfig = FileLogConfig(enabled: bool, maxSegment: nat, maxDirectory: nat)

  /** Even without any file that may be evicted, a whole segment does not fit. */
  ghost predicate Crowded(files: Directory, currentPath: string, maxSegment: nat, maxDirectory: nat) {
    Total(files) + maxSegment > maxDirectory && NothingManaged(files, currentPath)
  }

  predicate NothingManaged(files: Directory, currentPath: string) {
    forall name :: name in files && files[name].Regular? && HasPrefixAndSuffix(name) ==> name == currentPath
  }

  /** An eviction: the order to go by, how many files went, and the directory that was left. */
  datatype Eviction = Eviction(order: seq<ManagedFile>, count: nat, left: Directory)

  const NO_ORDER: seq<ManagedFile> := []

  /**
     What is left is what was there, without the shortest oldest-first run of managed files after which
     `reserved` more bytes fit in the budget.
     */
  ghost predicate MadeRoom(files: Directory, currentPath: string, reserved: nat, budget: nat, e: Eviction) {
    && e.count <= |e.order| && e.left == Remaining(files, e.order, e.count)
    && (e.count > 0 ==> EvictionOrder(files, currentPath, e.order))
    && (forall k :: 0 <= k < e.count ==> Left(files, e.order, k) + reserved > budget)
  }

  ghost predicate Grew(before: Directory, after: Directory, name: string) {
    && name in before && name in after && before[name].Regular? && after[name].Regular?
    && before[name].content <= after[name].content
  }

  /**
     Every file is as it was and holds what it held, except for one: that is new, or a segment that has
     grown. No file is lost.
     */
  ghost predicate Preserves(before: Directory, was: map<string, Span>,
                            after: Directory, spans: map<string, Span>, touched: string)
  {
    && after - {touched} == before - {touched}
    && (forall name :: name in was && name in before && name != touched ==> name in spans && spans[name] == was[name])
    && (touched in before ==>
          if touched in was
          then Grew(before, after, touched) && touched in spans && spans[touched].from == was[touched].from
          else touched in after && after[touched] == before[touched])
  }

  predicate Overflows(size: nat, line: string, maximum: nat) {
    size + (if |line| <= maximum then |line| else maximum) > maximum
  }

  class LoggerState {
    var files: Directory
    var clock: nat
    var enabled: bool
    var fileOpen: bool
    var currentPath: string
    var runName: string
    var maxSegment: nat
    var maxDirectory: nat
    var currentSize: nat
    var segmentIndex: nat
    /** Every write that was attempted, in call order, and which files hold which. */
    ghost var journal: seq<Written>
    ghost var spans: map<string, Span>

    /** The open segment is within its limit, and the directory has room for it to fill up. */
    ghost predicate WithinBudget()
      reads this
    {
      && 0 < maxSegment <= maxDirectory
      && currentPath in files && files[currentPath].Regular?
      && |files[currentPath].content| == currentSize <= maxSegment
      && Total(files) + (maxSegment - currentSize) <= maxDirectory
    }

    /** The open segment holds the newest stretch. */
    ghost predicate CurrentIsLast()
      reads this
    {
      && currentPath in spans && spans[currentPath].to == |journal|
      && forall name :: name in spans && name != currentPath ==> spans[name].to <= spans[currentPath].from
    }

    ghost predicate Valid()
      reads this
    {
      && (enabled ==> fileOpen) && Faithful(files, journal, spans)
      && (fileOpen ==> WithinBudget() && CurrentIsLast() && currentSize > 0 && K_LOG_FILE_PREFIX <= runName)
    }

    constructor (files: Directory, now: nat)
      ensures Valid() && this.files == files && !enabled && !fileOpen && journal == []
    {
      this.files, clock, enabled, fileOpen, currentPath, runName := files, now, false, false, "", "";
      maxSegment, maxDirectory, currentSize, segmentIndex := 5 * 1024 * 1024, 50 * 1024 * 1024, 0, 0;
      journal, spans := [], map[];
    }

    // ---------------------------------------------------------------- eviction

    /** The directory iteration, in whatever order it comes; it may fail at any entry. */
    method ListManaged() returns (ok: bool, total: nat, managed: seq<ManagedFile>)
      ensures ok ==> total == Total(files) && Lists(files, currentPath, managed)
    {
      total, managed := 0, [];
      var todo := files.Keys;
      while todo != {}
        invariant todo <= files.Keys && DistinctNames(managed)
        invariant total + Sum(files, todo) == Total(files)
        invariant forall file :: file in managed <==> IsManaged(files, currentPath, file) && file.name !in todo
        decreases |todo|
      {
        var name :| name in todo;
        var readable: bool := *;
        if !readable {
          return false, total, managed;
        }
        SumWithout(files, todo, name);
        todo := todo - {name};
        match files[name] {
          case Special =>
          case Regular(content, mtime) =>
            total := total + |content|;
            if HasPrefixAndSuffix(name) && name != currentPath {
              managed := managed + [ManagedFile(name, |content|, mtime)];
            }
        }
      }
      ok := true;
    }

    method ListByAge() returns (ok: bool, total: nat, order: seq<ManagedFile>)
      ensures ok ==> total == Total(files) && EvictionOrder(files, currentPath, order) && AreRecords(files, order)
    {
      var managed;
      ok, total, managed := ListManaged();
      order := SortByAge(managed);
      if ok {
        SortedIsManaged(files, currentPath, managed);
        SortedIsDistinct(files, currentPath, order);
      }
    }

    /** Removes files in the given order until the rest fits. */
    method Evict(order: seq<ManagedFile>, size: nat, target: nat) returns (ok: bool, total: nat, ghost count: nat)
      requires AreRecords(files, order) && size == Total(files)
      modifies this`files
      ensures count <= |order| && files == Remaining(old(files), order, count) && total == Total(files)
      ensures forall k :: 0 <= k < count ==> Left(old(files), order, k) > target
      ensures ok ==> total <= target || count == |order|
    {
      total, count := size, 0;
      var next := 0;
      ghost var before := files;
      while next < |order| && total > target
        invariant next == count <= |order| && files == Remaining(before, order, count)
        invariant total == Left(before, order, count)
        invariant forall k :: 0 <= k < count ==> Left(before, order, k) > target
      {
        var removable: bool := *;
        if !removable {
          return false, total, count;
        }
        RemoveNext(before, order, count);
        files := files - {order[next].name};
        total := total - order[next].size;
        next := next + 1;
        count := count + 1;
      }
      ok := true;
    }

    /**
     Removes the shortest oldest-first run of managed files after which `reserved` more bytes fit, and
     nothing else. It fails for lack of room only when removing all of them would not have been enough.
     */
    method MakeDirectoryRoom(reserved: nat) returns (ok: bool, ghost e: Eviction, ghost faulty: bool)
      modifies this`files
      ensures MadeRoom(old(files), currentPath, reserved, maxDirectory, e) && files == e.left
      ensures !faulty && reserved <= maxDirectory ==> EvictionOrder(old(files), currentPath, e.order)
      ensures ok ==> Total(files) + reserved <= maxDirectory
      ensures !ok && !faulty && reserved <= maxDirectory ==>
                Total(files) + reserved > maxDirectory && e.count == |e.order|
    {
      e, faulty := Eviction(NO_ORDER, 0, files), false;
      if reserved > maxDirectory {
        return false, e, faulty;
      }
      var listed, total, order := ListByAge();
      if !listed {
        return false, e, true;
      }
      ghost var count;
      ok, total, count := Evict(order, total, maxDirectory - reserved);
      e := Eviction(order, count, files);
      faulty := !ok;
      ok := ok && total <= maxDirectory - reserved;
    }

    // ---------------------------------------------------------------- segments

    method CloseFile()
      modifies this`fileOpen, this`currentPath, this`currentSize
      ensures !fileOpen && currentPath == if old(fileOpen) then "" else old(currentPath)
    {
      if !fileOpen {
        return;
      }
      fileOpen, currentPath, currentSize := false, "", 0;
    }

    method ReportFileError()
      modifies this`fileOpen, this`currentPath, this`currentSize, this`enabled
      ensures !fileOpen && !enabled && (!old(fileOpen) ==> currentPath == old(currentPath))
    {
      CloseFile();
      enabled := false;
    }

    method Tick()
      modifies this`clock
      ensures clock >= old(clock)
    {
      var passed: int := *;
      clock := clock + if passed > 0 then passed else 0;
    }

    /** Takes the first name that is free, in the order of trying; nothing existing is opened. */
    method CreateSegment() returns (created: bool, part: nat, ghost tries: nat)
      requires !fileOpen
      modifies this`files, this`clock, this`fileOpen, this`enabled, this`currentPath, this`currentSize,
               this`runName, this`segmentIndex
      ensures created ==>
                && currentPath == Candidate(old(runName), old(segmentIndex), tries) && currentPath !in old(files)
                && forall i :: 0 <= i < tries ==> Candidate(old(runName), old(segmentIndex), i) in old(files)
      ensures created ==>
                && fileOpen && currentSize == 0 && files == old(files)[currentPath := Regular("", clock)]
                && currentPath == SegmentName(runName, part) && segmentIndex == part + 1 && enabled == old(enabled)
      ensures !created ==>
                && !fileOpen && !enabled
                && (files == old(files)
                    || (currentPath !in old(files) && files == old(files)[currentPath := Regular("", clock)]))
      ensures K_LOG_FILE_PREFIX <= old(runName) ==> K_LOG_FILE_PREFIX <= runName
    {
      ghost var base, first := runName, segmentIndex;
      var opens;
      opens, part, tries := FindName();
      currentSize := 0;
      if opens {
        Tick();
        files := files[currentPath := Regular("", clock)];
        fileOpen := true;
        segmentIndex := part + 1;
        created := true;
      } else {
        // the file may have been created even if it could not be used
        var leftBehind: bool := *;
        if leftBehind && currentPath !in files {
          files := files[currentPath := Regular("", clock)];
        }
        ReportFileError();
        created := false;
      }
    }

    /** The collision search. It ends because a directory is finite and no name is tried twice. */
    method FindName() returns (opens: bool, part: nat, ghost tries: nat)
      modifies this`currentPath, this`runName
      ensures currentPath == SegmentName(runName, part) == Candidate(old(runName), segmentIndex, tries)
      ensures opens ==> currentPath !in files
      ensures forall i :: 0 <= i < tries ==> Candidate(old(runName), segmentIndex, i) in files
      ensures K_LOG_FILE_PREFIX <= old(runName) ==> K_LOG_FILE_PREFIX <= runName
    {
      var base, collision := runName, 0;
      part, tries := segmentIndex, 0;
      while true
        invariant runName == if segmentIndex == 0 then CollisionRunName(base, tries) else base
        invariant part == if segmentIndex == 0 then 0 else segmentIndex + tries
        invariant segmentIndex == 0 ==> collision == tries
        invariant forall i :: 0 <= i < tries ==> Candidate(base, segmentIndex, i) in files
        decreases |files| + 1 - tries
      {
        SearchIsBounded(base, segmentIndex, tries, files.Keys);
        currentPath := SegmentName(runName, part);
        assert currentPath == Candidate(base, segmentIndex, tries);
        opens := *;
        if !opens || currentPath !in files {
          return;
        }
        if segmentIndex == 0 {
          collision := collision + 1;
          runName := CollisionRunName(base, collision);
        } else {
          part := part + 1;
        }
        tries := tries + 1;
      }
    }

    /** Appends to the open segment. A failed write leaves some beginning of the text and ends file logging. */
    method WriteBytes(text: string, ghost line: string) returns (ok: bool, ghost part: string)
      requires fileOpen && WithinBudget() && CurrentIsLast() && Faithful(files, journal, spans)
      requires |text| <= maxSegment - currentSize
      modifies this`files, this`clock, this`currentSize, this`fileOpen, this`currentPath, this`enabled,
               this`journal, this`spans
      ensures Faithful(files, journal, spans) && Total(files) <= maxDirectory
      ensures part <= text && (ok ==> part == text)
      ensures journal == old(journal) + [Written(line, part)]
      ensures files == old(files)[old(currentPath) := Regular(old(files[currentPath].content) + part, clock)]
      ensures spans == old(spans)[old(currentPath) := Span(old(spans[currentPath].from), |journal|)]
      ensures ok ==>
                && fileOpen && WithinBudget() && CurrentIsLast() && enabled == old(enabled)
                && currentPath == old(currentPath) && currentSize == old(currentSize) + |text|
      ensures !ok ==> !fileOpen && !enabled
    {
      ok, part := *, text;
      if text == "" {
        ok := true;
      }
      if ok {
        Append(text, line);
      } else {
        var partly: int := *;
        var beginning := text[..if 0 <= partly <= |text| then partly else 0];
        Append(beginning, line);
        part := beginning;
        ReportFileError();
      }
    }

    method Append(text: string, ghost line: string)
      requires fileOpen && WithinBudget() && CurrentIsLast() && Faithful(files, journal, spans)
      requires |text| <= maxSegment - currentSize
      modifies this`files, this`clock, this`currentSize, this`journal, this`spans
      ensures Faithful(files, journal, spans) && WithinBudget() && CurrentIsLast()
      ensures journal == old(journal) + [Written(line, text)] && currentSize == old(currentSize) + |text|
      ensures files == old(files)[currentPath := Regular(old(files[currentPath].content) + text, clock)]
      ensures spans == old(spans)[currentPath := Span(old(spans[currentPath].from), |journal|)]
    {
      Tick();
      var entry := Regular(files[currentPath].content + text, clock);
      Record(entry, Written(line, text));
      TotalAfterWrite(files, currentPath, entry);
      files := files[currentPath := entry];
      currentSize := currentSize + |text|;
    }

    /** The journal's view of a write that makes this of the current file. */
    ghost method Record(entry: Entry, written: Written)
      requires currentPath in files && CurrentIsLast() && Faithful(files, journal, spans)
      requires entry.Regular? && files[currentPath].Regular? && entry.content == files[currentPath].content + written.text
      modifies this`journal, this`spans
      ensures Faithful(files[currentPath := entry], journal, spans) && CurrentIsLast()
      ensures journal == old(journal) + [written]
      ensures spans == old(spans)[currentPath := Span(old(spans[currentPath].from), |journal|)]
    {
      AppendKeepsFaithful(files, journal, spans, currentPath, entry, written);
      spans := spans[currentPath := Span(spans[currentPath].from, |journal| + 1)];
      journal := journal + [written];
    }

    // ---------------------------------------------------------------- rotation

    /** Room for a whole segment is made before the segment exists. */
    method MakeRoomForSegment() returns (ok: bool, ghost e: Eviction, ghost faulty: bool)
      requires Faithful(files, journal, spans) && maxSegment <= maxDirectory
      modifies this`files, this`spans
      ensures Faithful(files, journal, spans)
      ensures MadeRoom(old(files), currentPath, maxSegment, maxDirectory, e) && files == e.left
      ensures Pruned(old(spans), files, spans)
      ensures ok ==> Total(files) + maxSegment <= maxDirectory
      ensures !ok && !faulty ==> Crowded(files, currentPath, maxSegment, maxDirectory)
    {
      ghost var before := files;
      ok, e, faulty := MakeDirectoryRoom(maxSegment);
      PruneSpans(before, e);
      if !ok && !faulty {
        AllEvicted(before, currentPath, e.order);
      }
    }

    /** What was in evicted files is gone from the log; what is left is untouched. */
    ghost method PruneSpans(before: Directory, e: Eviction)
      requires Faithful(before, journal, spans) && files == e.left
      requires e.count <= |e.order| && e.left == Remaining(before, e.order, e.count)
      modifies this`spans
      ensures Faithful(files, journal, spans) && Pruned(old(spans), files, spans)
    {
      forall name | name in files
        ensures name in before && files[name] == before[name]
      {
        RemainingMeans(before, e.order, e.count, name);
      }
      PruningKeepsFaithful(before, files, journal, spans);
      spans := map name | name in spans && name in files :: spans[name];
    }

    method AddSegment(ghost was: map<string, Span>) returns (ok: bool, ghost name: string)
      requires !fileOpen && Faithful(files, journal, spans) && Pruned(was, files, spans)
      requires 0 < maxSegment && Total(files) + maxSegment <= maxDirectory
      modifies this`files, this`clock, this`fileOpen, this`enabled, this`currentPath, this`currentSize,
               this`runName, this`segmentIndex, this`spans
      ensures Faithful(files, journal, spans) && Preserves(old(files), was, files, spans, name)
      ensures ok ==> fileOpen && WithinBudget() && CurrentIsLast() && currentSize == 0 && enabled == old(enabled)
      ensures ok ==> name == currentPath && name !in old(files) && spans[name].from == |journal|
      ensures !ok ==> !fileOpen && !enabled
      ensures K_LOG_FILE_PREFIX <= old(runName) ==> K_LOG_FILE_PREFIX <= runName
    {
      ghost var before := files;
      ghost var part, tries;
      ok, part, tries := CreateSegment();
      name := currentPath;
      if ok {
        TotalAfterCreate(before, name, files[name]);
      }
      Enroll(before, was, name, ok);
    }

    ghost method Enroll(before: Directory, was: map<string, Span>, name: string, open: bool)
      requires Faithful(before, journal, spans) && Pruned(was, before, spans)
      requires (!open && files == before) || (name !in before && files == before[name := Regular("", clock)])
      modifies this`spans
      ensures Faithful(files, journal, spans) && Preserves(before, was, files, spans, name)
      ensures open ==>
                && name in spans && spans[name] == Span(|journal|, |journal|)
                && forall other :: other in spans ==> spans[other].to <= |journal|
    {
      ghost var start := Span(|journal|, |journal|);
      PruningPreserves(before, journal, was, spans, name);
      SpansEnd(before, journal, spans);
      if files != before {
        CreationPreserves(before, was, spans, name, files[name], start);
        MoreFilesKeepFaithful(before, files, journal, spans);
      }
      if open {
        NewSpanIsFaithful(files, journal, spans, name);
        spans := spans[name := start];
      }
    }

    /** Fails only if a file operation does, or if what may not be evicted leaves no room for a segment. */
    method StartSegment() returns (ok: bool, ghost e: Eviction, ghost name: string, ghost faulty: bool)
      requires !fileOpen && Faithful(files, journal, spans) && 0 < maxSegment <= maxDirectory
      modifies this`files, this`clock, this`fileOpen, this`enabled, this`currentPath, this`currentSize,
               this`runName, this`segmentIndex, this`spans
      ensures Faithful(files, journal, spans)
      ensures MadeRoom(old(files), old(currentPath), maxSegment, maxDirectory, e)
      ensures Preserves(e.left, old(spans), files, spans, name)
      ensures ok ==> fileOpen && WithinBudget() && CurrentIsLast() && currentSize == 0 && enabled == old(enabled)
      ensures ok ==> name == currentPath && name !in e.left && spans[name].from == |journal|
      ensures !ok ==> !fileOpen && !enabled
      ensures !ok && !faulty ==> Crowded(files, currentPath, maxSegment, maxDirectory)
      ensures K_LOG_FILE_PREFIX <= old(runName) ==> K_LOG_FILE_PREFIX <= runName
    {
      ghost var was := spans;
      ok, e, faulty := MakeRoomForSegment();
      if !ok {
        name := "";
        PruningPreserves(files, journal, was, spans, name);
        ReportFileError();
        return;
      }
      faulty := true;
      ok, name := AddSegment(was);
    }

    method WriteHeader() returns (ok: bool, ghost header: Written)
      requires fileOpen && WithinBudget() && CurrentIsLast() && currentSize == 0 && Faithful(files, journal, spans)
      modifies this`files, this`clock, this`currentSize, this`fileOpen, this`currentPath, this`enabled,
               this`journal, this`spans
      ensures Faithful(files, journal, spans) && journal == old(journal) + [header] && Shortened(header.line, header.text)
      ensures files == old(files)[old(currentPath) := Regular(header.text, clock)]
      ensures spans == old(spans)[old(currentPath) := Span(old(spans[currentPath].from), |journal|)]
      ensures ok ==>
                && fileOpen && WithinBudget() && CurrentIsLast() && currentSize > 0 && enabled == old(enabled)
                && currentPath == old(currentPath) && |header.text| == currentSize
      ensures !ok ==> !fileOpen && !enabled
    {
      var text: string := *;
      var headline := text + "\n";
      var whole := TruncateLine(headline, maxSegment);
      ghost var part;
      ok, part := WriteBytes(whole, headline);
      header := Written(headline, part);
      TruncationShortens(headline, maxSegment);
      BeginningIsShortened(headline, whole, |part|);
      assert "" + part == part;
    }

    /** A rotation: the eviction, then the new segment. The segment just closed may be evicted as well. */
    method OpenNextSegment()
      returns (ok: bool, ghost e: Eviction, ghost name: string, ghost header: seq<Written>, ghost faulty: bool)
      requires Faithful(files, journal, spans) && 0 < maxSegment <= maxDirectory && K_LOG_FILE_PREFIX <= runName
      modifies this`files, this`clock, this`fileOpen, this`enabled, this`currentPath, this`currentSize,
               this`runName, this`segmentIndex, this`spans, this`journal
      ensures Faithful(files, journal, spans) && K_LOG_FILE_PREFIX <= runName && journal == old(journal) + header
      ensures MadeRoom(old(files), if old(fileOpen) then "" else old(currentPath), maxSegment, maxDirectory, e)
      ensures Preserves(e.left, old(spans), files, spans, name)
      ensures ok ==> fileOpen && WithinBudget() && CurrentIsLast() && currentSize > 0 && enabled == old(enabled)
      ensures ok ==>
                && |header| == 1 && |header[0].text| == currentSize && Shortened(header[0].line, header[0].text)
                && name == currentPath && name !in e.left && files[name].content == header[0].text
      ensures !ok ==> !fileOpen && !enabled
      ensures !ok && !faulty ==> Crowded(files, currentPath, maxSegment, maxDirectory)
    {
      CloseFile();
      ghost var was := spans;
      header := [];
      ok, e, name, faulty := StartSegment();
      if ok {
        faulty := true;
        ghost var mid, midSpans := files, spans;
        ghost var first;
        ok, first := WriteHeader();
        header := [first];
        WritingPreserves(e.left, was, mid, midSpans, name, files[name], spans[name]);
      }
    }

    // ---------------------------------------------------------------- the logger

    method Init(config: FileLogConfig, directoryUsable: bool, stamp: string)
      returns (ghost e: Eviction, ghost name: string, ghost faulty: bool)
      requires Faithful(files, journal, spans)
      modifies this`files, this`clock, this`fileOpen, this`enabled, this`currentPath, this`currentSize,
               this`runName, this`segmentIndex, this`spans, this`journal, this`maxSegment, this`maxDirectory
      ensures Valid()
      ensures MadeRoom(old(files), if old(fileOpen) then "" else old(currentPath), maxSegment, maxDirectory, e)
      ensures Preserves(e.left, old(spans), files, spans, name)
      ensures enabled ==> name == currentPath && name !in e.left
      ensures config.enabled && config.maxSegment > 0 && config.maxDirectory > 0 && directoryUsable && !faulty ==>
                enabled || Crowded(files, currentPath, maxSegment, maxDirectory)
      ensures enabled ==> config.enabled && config.maxSegment > 0 && config.maxDirectory > 0 && directoryUsable
      ensures enabled ==>
                && maxDirectory == config.maxDirectory && maxSegment <= config.maxSegment
                && (maxSegment == config.maxSegment || maxSegment == maxDirectory)
    {
      CloseFile();
      enabled := false;
      runName, segmentIndex := "", 0;
      if !config.enabled || config.maxSegment == 0 || config.maxDirectory == 0 || !directoryUsable {
        e, name, faulty := Eviction(NO_ORDER, 0, files), "", false;
        PruningPreserves(files, journal, spans, spans, name);
        if config.enabled {
          ReportFileError();
        }
        return;
      }
      maxDirectory := config.maxDirectory;
      maxSegment := if config.maxSegment < config.maxDirectory then config.maxSegment else config.maxDirectory;
      e, name, faulty := StartRun(stamp);
    }

    method StartRun(stamp: string) returns (ghost e: Eviction, ghost name: string, ghost faulty: bool)
      requires Faithful(files, journal, spans) && 0 < maxSegment <= maxDirectory && !fileOpen
      modifies this`files, this`clock, this`fileOpen, this`enabled, this`currentPath, this`currentSize,
               this`runName, this`segmentIndex, this`spans, this`journal
      ensures Valid() && (enabled || faulty || Crowded(files, currentPath, maxSegment, maxDirectory))
      ensures MadeRoom(old(files), old(currentPath), maxSegment, maxDirectory, e)
      ensures Preserves(e.left, old(spans), files, spans, name)
      ensures enabled ==> name == currentPath && name !in e.left
    {
      runName := K_LOG_FILE_PREFIX + stamp;
      enabled := true;
      var opens;
      ghost var header;
      opens, e, name, header, faulty := OpenNextSegment();
    }

    method Shutdown()
      requires Valid()
      modifies this`fileOpen, this`currentPath, this`currentSize, this`enabled
      ensures Valid() && !enabled && !fileOpen
    {
      CloseFile();
      enabled := false;
    }

    /** Moves on to a new segment if the text does not fit behind what the open one holds. */
    method RotateFor(text: string)
      returns (ok: bool, ghost e: Eviction, ghost name: string, ghost header: seq<Written>, ghost faulty: bool)
      requires Valid() && enabled && |text| <= maxSegment
      modifies this`files, this`clock, this`fileOpen, this`enabled, this`currentPath, this`currentSize,
               this`runName, this`segmentIndex, this`spans, this`journal
      ensures Valid() && enabled == ok && journal == old(journal) + header
      ensures MadeRoom(old(files), "", maxSegment, maxDirectory, e)
      ensures Preserves(e.left, old(spans), files, spans, name)
      ensures !ok && !faulty ==> Crowded(files, currentPath, maxSegment, maxDirectory)
      ensures old(currentSize) + |text| <= maxSegment ==>
                && ok && header == [] && currentSize == old(currentSize) && name == currentPath == old(currentPath)
                && e.count == 0 && e.left == files == old(files)
      ensures old(currentSize) + |text| > maxSegment && ok ==>
                && |header| == 1 && |header[0].text| == currentSize && name == currentPath && name !in e.left
                && files[name].content == header[0].text
    {
      ok, header, faulty := true, [], false;
      if currentSize > 0 && currentSize + |text| > maxSegment {
        ok, e, name, header, faulty := OpenNextSegment();
      } else {
        e, name := Eviction(NO_ORDER, 0, files), currentPath;
        PruningPreserves(files, journal, spans, spans, name);
      }
    }

    /** The rest of the log call. The room left is never negative. */
    method WriteFitting(text: string, ghost line: string) returns (ok: bool, ghost cut: string, ghost part: string)
      requires Valid() && enabled
      modifies this`files, this`clock, this`currentSize, this`fileOpen, this`currentPath, this`enabled,
               this`journal, this`spans
      ensures Valid() && enabled == ok
      ensures cut == TruncateLine(text, maxSegment - old(currentSize))
      ensures part <= cut && (ok ==> part == cut) && journal == old(journal) + [Written(line, part)]
      ensures files == old(files)[old(currentPath) := Regular(old(files[currentPath].content) + part, clock)]
      ensures spans == old(spans)[old(currentPath) := Span(old(spans[currentPath].from), |journal|)]
      ensures ok ==> currentPath == old(currentPath) && currentSize == old(currentSize) + |cut|
    {
      var remaining: nat := maxSegment - currentSize;
      var fitting := TruncateLine(text, remaining);
      cut := fitting;
      ok, part := WriteBytes(fitting, line);
    }

    /** A line that fits a segment: into this one, or into the next if it does not fit here. */
    method Place(whole: string, ghost line: string)
      returns (ghost e: Eviction, ghost name: string, ghost header: seq<Written>, ghost text: string,
               ghost faulty: bool)
      requires Valid() && enabled && |whole| <= maxSegment
      modifies this`files, this`clock, this`fileOpen, this`enabled, this`currentPath, this`currentSize,
               this`runName, this`segmentIndex, this`spans, this`journal
      ensures Valid() && old(journal) <= journal
      ensures MadeRoom(old(files), "", maxSegment, maxDirectory, e)
      ensures Preserves(e.left, old(spans), files, spans, name)
      ensures !enabled && !faulty ==> Crowded(files, currentPath, maxSegment, maxDirectory)
      ensures enabled ==> journal == old(journal) + header + [Written(line, text)] && name == currentPath
      ensures old(currentSize) + |whole| <= maxSegment ==> e.count == 0 && e.left == old(files)
      ensures enabled && old(currentSize) + |whole| <= maxSegment ==>
                && header == [] && text == whole && currentSize == old(currentSize) + |whole|
                && name == old(currentPath) && files[name].content == old(files[currentPath].content) + whole
      ensures enabled && old(currentSize) + |whole| > maxSegment ==>
                && |header| == 1 && currentSize == |header[0].text| + |text| && |header[0].text| <= maxSegment
                && text == TruncateLine(whole, maxSegment - |header[0].text|)
                && name !in e.left && files[name].content == header[0].text + text
    {
      text := "";
      ghost var was := spans;
      var ok;
      ok, e, name, header, faulty := RotateFor(whole);
      if !ok {
        return;
      }
      ghost var mid, midSpans := files, spans;
      ghost var part;
      ok, text, part := WriteFitting(whole, line);
      faulty := !ok;
      WritingPreserves(e.left, was, mid, midSpans, name, files[name], spans[name]);
    }

    /**
     One line into the log. While logging stays enabled, the line is the newest entry: whole if it fits
     behind what the segment holds, else cut to what the next segment has left after its header. Whatever
     happens, only a rotation removes files, and then the shortest oldest-first run; every other file, and
     what it holds of the journal, is preserved. Without a failing file operation, logging ends only if
     files that may not be evicted leave no room.
     */
    method Log(shown: bool, line: string)
      returns (ghost e: Eviction, ghost name: string, ghost header: seq<Written>, ghost text: string,
               ghost faulty: bool)
      requires Valid()
      modifies this
      ensures Valid() && (enabled ==> old(enabled)) && maxSegment == old(maxSegment)
      ensures MadeRoom(old(files), "", maxSegment, maxDirectory, e)
      ensures Preserves(e.left, old(spans), files, spans, name)
      ensures !Overflows(old(currentSize), line, maxSegment) ==> e.count == 0 && e.left == old(files)
      ensures old(enabled) && !enabled && !faulty ==> Crowded(files, currentPath, maxSegment, maxDirectory)
      ensures !shown || !old(enabled) ==> files == old(files) && journal == old(journal) && enabled == old(enabled)
      ensures shown && enabled ==> journal == old(journal) + header + [Written(line, text)] && name == currentPath
      ensures shown && enabled && !Overflows(old(currentSize), line, maxSegment) ==>
                && header == [] && text == line && currentSize == old(currentSize) + |line|
                && name == old(currentPath) && files[name].content == old(files[currentPath].content) + line
      ensures shown && enabled && Overflows(old(currentSize), line, maxSegment) ==>
                && |header| == 1 && currentSize == |header[0].text| + |text|
                && text == Fitted(line, maxSegment, maxSegment - |header[0].text|)
                && name !in e.left && files[name].content == header[0].text + text
    {
      header, text, faulty := [], "", false;
      if !shown || !enabled {
        e, name := Eviction(NO_ORDER, 0, files), currentPath;
        PruningPreserves(files, journal, spans, spans, name);
        return;
      }
      var whole := line;
      if |whole| > maxSegment {
        whole := TruncateLine(whole, maxSegment);
      }
      e, name, header, text, faulty := Place(whole, line);
    }
  }

  /** Every managed file once, in any order. */
  ghost predicate Lists(files: Directory, currentPath: string, managed: seq<ManagedFile>) {
    DistinctNames(managed) && forall file :: file in managed <==> IsManaged(files, currentPath, file)
  }

  predicate AreRecords(files: Directory, order: seq<ManagedFile>) {
    DistinctNames(order) && forall i :: 0 <= i < |order| ==> IsRecord(files, order[i])
  }

  /** Every managed file, the others never, strictly by write time and then by name. */
  ghost predicate EvictionOrder(files: Directory, currentPath: string, order: seq<ManagedFile>) {
    ByAge(order) && forall file :: file in order <==> IsManaged(files, currentPath, file)
  }

  lemma SortedIsManaged(files: Directory, currentPath: string, managed: seq<ManagedFile>)
    requires Lists(files, currentPath, managed)
    ensures EvictionOrder(files, currentPath, SortByAge(managed))
  {
    SortIsByAge(managed);
    forall file
      ensures file in SortByAge(managed) <==> file in managed
    {
      assert file in SortByAge(managed) <==> file in multiset(SortByAge(managed));
    }
  }

  /** Once everything in the eviction order is gone, no managed file is left. */
  lemma AllEvicted(files: Directory, currentPath: string, order: seq<ManagedFile>)
    requires EvictionOrder(files, currentPath, order)
    ensures NothingManaged(Remaining(files, order, |order|), currentPath)
  {
    var left := Remaining(files, order, |order|);
    forall name | name in left && left[name].Regular? && HasPrefixAndSuffix(name)
      ensures name == currentPath
    {
      RemainingMeans(files, order, |order|, name);
      assert ManagedFile(name, |files[name].content|, files[name].mtime) !in order;
    }
  }

  /** What may not be evicted never is. */
  lemma EvictionSpares(files: Directory, currentPath: string, reserved: nat, budget: nat, e: Eviction, name: string)
    requires MadeRoom(files, currentPath, reserved, budget, e) && name in files
    requires files[name].Special? || !HasPrefixAndSuffix(name) || name == currentPath
    ensures name in e.left && e.left[name] == files[name]
  {
    RemainingMeans(files, e.order, e.count, name);
    forall i | 0 <= i < e.count
      ensures e.order[i].name != name
    {
      assert e.order[i] in e.order;
    }
  }

  lemma EvictedIsListed(files: Directory, currentPath: string, reserved: nat, budget: nat, e: Eviction,
                        file: ManagedFile)
    returns (i: nat)
    requires MadeRoom(files, currentPath, reserved, budget, e)
    requires IsManaged(files, currentPath, file) && file.name !in e.left
    ensures i < e.count && e.order[i] == file
  {
    RemainingMeans(files, e.order, e.count, file.name);
    i :| i < e.count && e.order[i].name == file.name;
    assert e.order[i] in e.order;
  }

  /** No managed file is evicted while an older one stays. */
  lemma OldestGoFirst(files: Directory, currentPath: string, reserved: nat, budget: nat, e: Eviction,
                      gone: ManagedFile, older: ManagedFile)
    requires MadeRoom(files, currentPath, reserved, budget, e)
    requires IsManaged(files, currentPath, gone) && IsManaged(files, currentPath, older) && Older(older, gone)
    requires gone.name !in e.left
    ensures older.name !in e.left
  {
    var i := EvictedIsListed(files, currentPath, reserved, budget, e, gone);
    assert older in e.order;
    var j :| 0 <= j < |e.order| && e.order[j] == older;
    if older.name == gone.name {
      LexIrreflexive(gone.name);
    } else {
      OlderTotal(older, gone);
      assert j < i;
      RemainingMeans(files, e.order, e.count, older.name);
    }
  }

  lemma SortedIsDistinct(files: Directory, currentPath: string, order: seq<ManagedFile>)
    requires EvictionOrder(files, currentPath, order)
    ensures AreRecords(files, order)
  {
    forall i | 0 <= i < |order|
      ensures IsRecord(files, order[i])
    {
      assert order[i] in order;
    }
    forall i, j | 0 <= i < j < |order|
      ensures order[i].name != order[j].name
    {
      ByAgeIsDistinct(order, i, j);
    }
  }

  lemma RemoveNext(files: Directory, order: seq<ManagedFile>, k: nat)
    requires k < |order| && AreRecords(files, order)
    ensures Left(files, order, k) == order[k].size + Left(files, order, k + 1)
  {
    RemainingMeans(files, order, k, order[k].name);
    TotalWithout(Remaining(files, order, k), order[k].name);
  }

  predicate OneMore(before: Directory, after: Directory) {
    forall name :: name in before ==> name in after && after[name] == before[name]
  }

  lemma AppendExtends(files: Directory, journal: seq<Written>, name: string, span: Span,
                      entry: Entry, written: Written)
    requires Holds(files, journal, name, span) && span.to == |journal|
    requires entry.Regular? && entry.content == files[name].content + written.text
    ensures Holds(files[name := entry], journal + [written], name, Span(span.from, |journal| + 1))
  {
    assert (journal + [written])[span.from..|journal| + 1] == journal[span.from..|journal|] + [written];
    TextOfSnoc(journal[span.from..|journal|], written);
  }

  lemma AppendSpares(files: Directory, journal: seq<Written>, name: string, span: Span,
                     other: string, entry: Entry, written: Written)
    requires Holds(files, journal, name, span) && other != name
    ensures Holds(files[other := entry], journal + [written], name, span)
  {
    assert (journal + [written])[span.from..span.to] == journal[span.from..span.to];
  }

  lemma AppendKeepsFaithful(files: Directory, journal: seq<Written>, spans: map<string, Span>,
                            name: string, entry: Entry, written: Written)
    requires Faithful(files, journal, spans) && name in spans && spans[name].to == |journal|
    requires forall other :: other in spans && other != name ==> spans[other].to <= spans[name].from
    requires name in files && files[name].Regular?
    requires entry.Regular? && entry.content == files[name].content + written.text
    ensures Faithful(files[name := entry], journal + [written],
                     spans[name := Span(spans[name].from, |journal| + 1)])
  {
    AppendExtends(files, journal, name, spans[name], entry, written);
    forall other | other in spans && other != name
      ensures Holds(files[name := entry], journal + [written], other, spans[other])
    {
      AppendSpares(files, journal, other, spans[other], name, entry, written);
    }
  }

  lemma MoreFilesKeepFaithful(before: Directory, after: Directory, journal: seq<Written>, spans: map<string, Span>)
    requires Faithful(before, journal, spans) && OneMore(before, after)
    ensures Faithful(after, journal, spans)
  {
    forall name | name in spans
      ensures Holds(after, journal, name, spans[name])
    {
      assert Holds(before, journal, name, spans[name]);
    }
  }

  lemma PruningKeepsFaithful(before: Directory, left: Directory, journal: seq<Written>, spans: map<string, Span>)
    requires Faithful(before, journal, spans)
    requires forall name :: name in left ==> name in before && left[name] == before[name]
    ensures Faithful(left, journal, map name | name in spans && name in left :: spans[name])
  {
    var pruned := map name | name in spans && name in left :: spans[name];
    forall name | name in pruned
      ensures Holds(left, journal, name, pruned[name])
    {
      assert Holds(before, journal, name, spans[name]);
    }
    forall a, b | a in pruned && b in pruned && a != b
      ensures Apart(pruned[a], pruned[b])
    {
      assert Apart(spans[a], spans[b]);
    }
  }

  lemma NewSpanIsFaithful(files: Directory, journal: seq<Written>, spans: map<string, Span>, name: string)
    requires Faithful(files, journal, spans) && name in files && files[name].Regular? && files[name].content == ""
    ensures Faithful(files, journal, spans[name := Span(|journal|, |journal|)])
  {
    assert journal[|journal|..|journal|] == [];
    forall other | other in spans
      ensures Holds(files, journal, other, spans[other])
    {
    }
  }

  lemma SpansEnd(files: Directory, journal: seq<Written>, spans: map<string, Span>)
    requires Faithful(files, journal, spans)
    ensures forall name :: name in spans ==> spans[name].to <= |journal|
  {
    forall name | name in spans
      ensures spans[name].to <= |journal|
    {
      assert Holds(files, journal, name, spans[name]);
    }
  }

  lemma PruningPreserves(files: Directory, journal: seq<Written>, was: map<string, Span>, spans: map<string, Span>,
                         name: string)
    requires Faithful(files, journal, spans) && Pruned(was, files, spans)
    ensures Preserves(files, was, files, spans, name)
  {
    if name in was && name in files {
      assert Holds(files, journal, name, spans[name]);
    }
  }

  lemma CreationPreserves(files: Directory, was: map<string, Span>, spans: map<string, Span>,
                          name: string, entry: Entry, span: Span)
    requires name !in files && Pruned(was, files, spans)
    ensures Preserves(files, was, files[name := entry], spans[name := span], name)
    ensures Preserves(files, was, files[name := entry], spans, name)
  {
    assert files[name := entry] - {name} == files - {name};
  }

  lemma WritingPreserves(before: Directory, was: map<string, Span>, mid: Directory, midSpans: map<string, Span>,
                         name: string, entry: Entry, span: Span)
    requires Preserves(before, was, mid, midSpans, name) && name in midSpans && name in mid
    requires entry.Regular? && mid[name].Regular? && mid[name].content <= entry.content
    requires span.from == midSpans[name].from && (name in before ==> name in was)
    ensures Preserves(before, was, mid[name := entry], midSpans[name := span], name)
  {
    var after := mid[name := entry];
    assert after - {name} == mid - {name};
  }

  /** Every segment the logger creates is one it may evict later. */
  lemma SegmentsAreManaged(runName: string, part: nat)
    requires K_LOG_FILE_PREFIX <= runName
    ensures HasPrefixAndSuffix(SegmentName(runName, part))
  {
    var name := SegmentName(runName, part);
    assert name[|name| - |K_LOG_FILE_SUFFIX|..] == K_LOG_FILE_SUFFIX;
    assert K_LOG_FILE_PREFIX <= name;
  }
}
