/** The log directory: what it holds, how much that is, and how old files make room for new ones. */
module LogDirectory {
  import opened LogNames

  datatype Entry =
    | Regular(content: string, mtime: nat)
    | Special // a directory, link or device

  type Directory = map<string, Entry>

  function Size(entry: Entry): nat { if entry.Regular? then |entry.content| else 0 }

  ghost function Pick(names: set<string>): (name: string)
    requires names != {}
    ensures name in names
  {
    var name :| name in names;
    name
  }

  /** Bytes in the regular files among these. */
  ghost function Sum(files: Directory, names: set<string>): nat
    requires names <= files.Keys
    decreases |names|
  {
    if names == {} then 0
    else
      var name := Pick(names);
      Size(files[name]) + Sum(files, names - {name})
  }

  /** Bytes in all regular files. */
  ghost function Total(files: Directory): nat { Sum(files, files.Keys) }

  lemma {:induction false} SumWithout(files: Directory, names: set<string>, name: string)
    requires name in names && names <= files.Keys
    ensures Sum(files, names) == Size(files[name]) + Sum(files, names - {name})
    decreases |names|
  {
    var picked := Pick(names);
    if picked != name {
      SumWithout(files, names - {picked}, name);
      SumWithout(files, names - {name}, picked);
      assert names - {picked} - {name} == names - {name} - {picked};
    }
  }

  lemma {:induction false} SumFrame(a: Directory, b: Directory, names: set<string>)
    requires names <= a.Keys && names <= b.Keys && forall name :: name in names ==> a[name] == b[name]
    ensures Sum(a, names) == Sum(b, names)
    decreases |names|
  {
    if names != {} {
      SumFrame(a, b, names - {Pick(names)});
    }
  }

  lemma TotalWithout(files: Directory, name: string)
    requires name in files
    ensures Total(files) == Size(files[name]) + Total(files - {name})
  {
    SumWithout(files, files.Keys, name);
    SumFrame(files, files - {name}, files.Keys - {name});
    assert (files - {name}).Keys == files.Keys - {name};
  }

  lemma TotalWith(files: Directory, name: string, entry: Entry)
    ensures Total(files[name := entry]) == Total(files - {name}) + Size(entry)
  {
    TotalWithout(files[name := entry], name);
    assert files[name := entry] - {name} == files - {name};
  }

  lemma TotalAfterWrite(files: Directory, name: string, entry: Entry)
    requires name in files
    ensures Total(files[name := entry]) == Total(files) - Size(files[name]) + Size(entry)
  {
    TotalWith(files, name, entry);
    TotalWithout(files, name);
  }

  lemma TotalAfterCreate(files: Directory, name: string, entry: Entry)
    requires name !in files
    ensures Total(files[name := entry]) == Total(files) + Size(entry)
  {
    TotalWith(files, name, entry);
    assert files - {name} == files;
  }

  // ---------------------------------------------------------------- age

  datatype ManagedFile = ManagedFile(name: string, size: nat, writeTime: nat)

  /** The directory after the first k of these files are removed. */
  function Remaining(files: Directory, order: seq<ManagedFile>, k: nat): Directory
    requires k <= |order|
    decreases k
  {
    if k == 0 then files else Remaining(files, order, k - 1) - {order[k - 1].name}
  }

  /** Bytes left after that. */
  ghost function Left(files: Directory, order: seq<ManagedFile>, k: nat): nat
    requires k <= |order|
  {
    Total(Remaining(files, order, k))
  }

  lemma {:induction false} RemainingMeans(files: Directory, order: seq<ManagedFile>, k: nat, name: string)
    requires k <= |order|
    ensures name in Remaining(files, order, k) <==>
            name in files && forall i :: 0 <= i < k ==> order[i].name != name
    ensures name in Remaining(files, order, k) ==> Remaining(files, order, k)[name] == files[name]
    decreases k
  {
    if k > 0 {
      RemainingMeans(files, order, k - 1, name);
    }
  }

  predicate IsRecord(files: Directory, file: ManagedFile) {
    && file.name in files && files[file.name].Regular?
    && file == ManagedFile(file.name, |files[file.name].content|, files[file.name].mtime)
  }

  predicate Older(a: ManagedFile, b: ManagedFile) {
    if a.writeTime != b.writeTime then a.writeTime < b.writeTime else LexLess(a.name, b.name)
  }

  predicate ByAge(files: seq<ManagedFile>) {
    forall i, j :: 0 <= i < j < |files| ==> Older(files[i], files[j])
  }

  predicate DistinctNames(files: seq<ManagedFile>) {
    forall i, j :: 0 <= i < j < |files| ==> files[i].name != files[j].name
  }

  lemma OlderTransitive(a: ManagedFile, b: ManagedFile, c: ManagedFile)
    requires Older(a, b) && Older(b, c)
    ensures Older(a, c)
  {
    if a.writeTime == b.writeTime == c.writeTime {
      LexTransitive(a.name, b.name, c.name);
    }
  }

  lemma OlderTotal(a: ManagedFile, b: ManagedFile)
    requires a.name != b.name
    ensures Older(a, b) <==> !Older(b, a)
  {
    LexTotal(a.name, b.name);
  }

  function Insert(file: ManagedFile, sorted: seq<ManagedFile>): seq<ManagedFile> {
    if sorted == [] || Older(file, sorted[0]) then [file] + sorted else [sorted[0]] + Insert(file, sorted[1..])
  }

  function SortByAge(files: seq<ManagedFile>): seq<ManagedFile> {
    if files == [] then [] else Insert(files[0], SortByAge(files[1..]))
  }

  lemma {:induction false} InsertKeepsElements(file: ManagedFile, sorted: seq<ManagedFile>)
    ensures multiset(Insert(file, sorted)) == multiset(sorted) + multiset{file}
  {
    if sorted != [] && !Older(file, sorted[0]) {
      InsertKeepsElements(file, sorted[1..]);
      assert sorted == [sorted[0]] + sorted[1..];
    }
  }

  lemma {:induction false} InsertByAge(file: ManagedFile, sorted: seq<ManagedFile>)
    requires ByAge(sorted) && forall i :: 0 <= i < |sorted| ==> sorted[i].name != file.name
    ensures ByAge(Insert(file, sorted))
  {
    if sorted != [] {
      var first, rest := sorted[0], sorted[1..];
      if Older(file, first) {
        forall i | 0 <= i < |rest|
          ensures Older(file, rest[i])
        {
          OlderTransitive(file, first, rest[i]);
        }
      } else {
        InsertByAge(file, rest);
        InsertKeepsElements(file, rest);
        OlderTotal(file, first);
        var all := Insert(file, rest);
        forall i | 0 <= i < |all|
          ensures Older(first, all[i])
        {
          assert all[i] in multiset(all);
          assert all[i] == file || all[i] in rest;
        }
      }
    }
  }

  lemma {:induction false} SortKeepsElements(files: seq<ManagedFile>)
    ensures multiset(SortByAge(files)) == multiset(files)
  {
    if files != [] {
      SortKeepsElements(files[1..]);
      InsertKeepsElements(files[0], SortByAge(files[1..]));
      assert files == [files[0]] + files[1..];
    }
  }

  /** The order of eviction: every file once, strictly by age. */
  lemma {:induction false} SortIsByAge(files: seq<ManagedFile>)
    requires DistinctNames(files)
    ensures ByAge(SortByAge(files)) && multiset(SortByAge(files)) == multiset(files)
  {
    SortKeepsElements(files);
    if files != [] {
      var rest := SortByAge(files[1..]);
      SortIsByAge(files[1..]);
      forall i | 0 <= i < |rest|
        ensures rest[i].name != files[0].name
      {
        assert rest[i] in multiset(rest);
        assert rest[i] in files[1..];
      }
      InsertByAge(files[0], rest);
    }
  }

  lemma ByAgeIsDistinct(files: seq<ManagedFile>, i: nat, j: nat)
    requires ByAge(files) && i < j < |files|
    ensures files[i] != files[j]
  {
    LexIrreflexive(files[i].name);
  }
}
