/** File-set discovery: the importer's path is a file, a directory or nothing. A
    directory is walked with a first-in first-out worklist seeded with the
    directory's entries that pass the name filter; a dequeued directory has its
    own passing entries enqueued, and a dequeued file is read. The filter tests
    the name only, so it applies to subdirectories too. */
module Discovery {
  import opened Wrappers
  import opened Text
  import opened Cells

  /** A file-system tree: a file with its contents, or a directory with its
      entries in listing order. */
  datatype Entry =
    | File(name: string, content: CsvFile)
    | Directory(name: string, children: seq<Entry>)

  const CsvSuffix := ".csv"

  /** The name filter of the directory walk. */
  predicate Accept(e: Entry)
  {
    EndsWith(e.name, CsvSuffix)
  }

  /** listFiles(filter): the entries that pass the filter, in listing order. */
  function Listed(children: seq<Entry>): (r: seq<Entry>)
    ensures forall e :: e in r <==> e in children && Accept(e)
    ensures |r| <= |children|
  {
    if |children| == 0 then []
    else (if Accept(children[0]) then [children[0]] else []) + Listed(children[1..])
  }

  /** Filtering a listing keeps the listing order: the entries of a concatenation
      pass in the order of its parts. */
  lemma {:induction false} ListedAppend(a: seq<Entry>, b: seq<Entry>)
    ensures Listed(a + b) == Listed(a) + Listed(b)
  {
    if |a| > 0 {
      assert (a + b)[0] == a[0];
      assert (a + b)[1..] == a[1..] + b;
      ListedAppend(a[1..], b);
    } else {
      assert a + b == b;
    }
  }

  /** One entry is listed exactly when it passes the filter. */
  lemma ListedOne(e: Entry)
    ensures Listed([e]) == if Accept(e) then [e] else []
  {
  }

  function Size(e: Entry): (n: nat)
    ensures n >= 1
    decreases e
  {
    match e
    case File(_, _) => 1
    case Directory(_, children) => 1 + TotalSize(children)
  }

  function TotalSize(es: seq<Entry>): nat
    decreases es
  {
    if |es| == 0 then 0 else Size(es[0]) + TotalSize(es[1..])
  }

  lemma {:induction false} TotalSizeAppend(a: seq<Entry>, b: seq<Entry>)
    ensures TotalSize(a + b) == TotalSize(a) + TotalSize(b)
    decreases |a|
  {
    if |a| == 0 {
      assert a + b == b;
    } else {
      assert (a + b)[0] == a[0] && (a + b)[1..] == a[1..] + b;
      TotalSizeAppend(a[1..], b);
    }
  }

  lemma {:induction false} TotalSizeListed(children: seq<Entry>)
    ensures TotalSize(Listed(children)) <= TotalSize(children)
    decreases |children|
  {
    if |children| > 0 {
      TotalSizeListed(children[1..]);
      var head := if Accept(children[0]) then [children[0]] else [];
      TotalSizeAppend(head, Listed(children[1..]));
      if Accept(children[0]) {
        assert head[1..] == [];
      }
    }
  }

  /** Expanding the directory at the head of the queue shrinks the queue's size. */
  lemma ExpandShrinks(queue: seq<Entry>)
    requires |queue| > 0 && queue[0].Directory?
    ensures TotalSize(queue[1..] + Listed(queue[0].children)) < TotalSize(queue)
  {
    TotalSizeAppend(queue[1..], Listed(queue[0].children));
    TotalSizeListed(queue[0].children);
  }

  /** The files the worklist loop reads, in the order it reads them, when it
      starts from `queue`. */
  function Walk(queue: seq<Entry>): seq<Entry>
    decreases TotalSize(queue)
  {
    if |queue| == 0 then []
    else match queue[0]
      case File(_, _) => [queue[0]] + Walk(queue[1..])
      case Directory(_, children) =>
        ExpandShrinks(queue);
        Walk(queue[1..] + Listed(children))
  }

  /** Reference definition, depth first: the files under an entry that passed the
      filter, reached through entries that all pass the filter. */
  function FilesUnder(e: Entry): seq<Entry>
    decreases Size(e), 0
  {
    match e
    case File(_, _) => [e]
    case Directory(_, children) =>
      TotalSizeListed(children);
      FilesUnderAll(Listed(children))
  }

  function FilesUnderAll(es: seq<Entry>): seq<Entry>
    decreases TotalSize(es), 1
  {
    if |es| == 0 then [] else FilesUnder(es[0]) + FilesUnderAll(es[1..])
  }

  lemma {:induction false} FilesUnderAllAppend(a: seq<Entry>, b: seq<Entry>)
    ensures FilesUnderAll(a + b) == FilesUnderAll(a) + FilesUnderAll(b)
    decreases |a|
  {
    if |a| == 0 {
      assert a + b == b;
    } else {
      assert (a + b)[0] == a[0] && (a + b)[1..] == a[1..] + b;
      FilesUnderAllAppend(a[1..], b);
    }
  }

  /** The worklist reads every file reachable through accepted entries exactly
      once: as a multiset, what it reads is the depth-first collection. */
  lemma {:induction false} WalkReadsEachFileOnce(queue: seq<Entry>)
    ensures multiset(Walk(queue)) == multiset(FilesUnderAll(queue))
    decreases TotalSize(queue)
  {
    if |queue| > 0 {
      var rest := queue[1..];
      match queue[0]
      case File(_, _) =>
        WalkReadsEachFileOnce(rest);
      case Directory(_, children) =>
        ExpandShrinks(queue);
        WalkReadsEachFileOnce(rest + Listed(children));
        FilesUnderAllAppend(rest, Listed(children));
    }
  }

  /** Everything read is a file that passed the filter, when the queue holds only
      entries that passed it. */
  lemma {:induction false} WalkReadsAcceptedFiles(queue: seq<Entry>)
    requires forall e :: e in queue ==> Accept(e)
    ensures forall e :: e in Walk(queue) ==> e.File? && Accept(e)
    decreases TotalSize(queue)
  {
    if |queue| > 0 {
      var rest := queue[1..];
      assert forall e :: e in rest ==> e in queue;
      match queue[0]
      case File(_, _) =>
        WalkReadsAcceptedFiles(rest);
      case Directory(_, children) =>
        ExpandShrinks(queue);
        WalkReadsAcceptedFiles(rest + Listed(children));
    }
  }

  /** The files read for a path argument: the file itself, or the walk seeded with
      the directory's accepted entries. */
  function FilesToRead(target: Entry): (r: seq<Entry>)
    ensures target.File? ==> r == [target]
    ensures forall e :: e in r ==> e.File?
  {
    match target
    case File(_, _) => [target]
    case Directory(_, children) =>
      WalkReadsAcceptedFiles(Listed(children));
      Walk(Listed(children))
  }

  /** A queue of files only is read in queue order, each once. */
  lemma {:induction false} WalkOfFilesKeepsOrder(queue: seq<Entry>)
    requires forall i :: 0 <= i < |queue| ==> queue[i].File?
    ensures Walk(queue) == queue
    decreases |queue|
  {
    if |queue| > 0 {
      WalkOfFilesKeepsOrder(queue[1..]);
      assert [queue[0]] + queue[1..] == queue;
    }
  }

  /** Four entries of which the first and last pass the filter. */
  lemma ListedFirstAndLast(w: Entry, x: Entry, y: Entry, z: Entry)
    requires Accept(w) && !Accept(x) && !Accept(y) && Accept(z)
    ensures Listed([w, x, y, z]) == [w, z]
  {
    var es := [w, x, y, z];
    assert es[1..] == [x, y, z] && es[1..][1..] == [y, z] && es[1..][1..][1..] == [z];
    assert Listed([z]) == [z];
    assert Listed([y, z]) == [z];
  }

  /** A file followed by a directory holding one accepted file. */
  lemma WalkFileThenDirectory(a: Entry, d: Entry, c: Entry)
    requires a.File? && c.File? && Accept(c) && d == Directory(d.name, [c])
    ensures Walk([a, d]) == [a, c]
  {
    assert Listed([c]) == [c];
    assert [a, d][1..] == [d];
    assert [d][1..] + [c] == [c];
    assert Walk([c]) == [c];
    assert Walk([d]) == [c];
  }

  /** Subdirectories are filtered by name like files: in a directory holding a.csv,
      notes.txt, a subdirectory sub with b.csv and a subdirectory more.csv with
      c.csv, only a.csv and c.csv are read. */
  lemma NestedDirectoryNeedsCsvName(f: CsvFile, g: CsvFile, h: CsvFile, k: CsvFile)
    ensures FilesToRead(Directory("data", [File("a.csv", f), File("notes.txt", g),
                                           Directory("sub", [File("b.csv", h)]),
                                           Directory("more.csv", [File("c.csv", k)])]))
      == [File("a.csv", f), File("c.csv", k)]
  {
    var a := File("a.csv", f);
    var notes := File("notes.txt", g);
    var sub := Directory("sub", [File("b.csv", h)]);
    var c := File("c.csv", k);
    var more := Directory("more.csv", [c]);
    assert Accept(a) && Accept(more) && Accept(c);
    assert !Accept(notes) by {
      assert "notes.txt"[5..] == ".txt";
    }
    assert !Accept(sub);
    ListedFirstAndLast(a, notes, sub, more);
    WalkFileThenDirectory(a, more, c);
  }
}
