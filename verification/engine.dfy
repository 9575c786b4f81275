/**
 `SearchEngine`: the per-file search with its results append, the two passes
 over the directory tree, the progress counters and the wait for completion,
 run as one sequential interleaving of the main thread and a worker.
 */
module Engine {
  import opened Text
  import opened Matcher
  import opened WorkerPool

  /** One entry the recursive directory iterator yields. */
  datatype Entry = Entry(path: string, isRegularFile: bool)

  /** Raw contents of the files that can be opened, by path; any other path cannot be opened. */
  type Disk = map<string, string>

  /** One results record: a file and its matching line numbers. */
  datatype Match = Match(path: string, lines: seq<nat>)

  /** What a submitted task captures: the file's path and the search term. */
  datatype FileTask = FileTask(path: string, term: string)

  /** What `searchInFile` appends for one file: one record, or nothing. */
  function FileResult(disk: Disk, t: FileTask): (r: seq<Match>)
    ensures |r| <= 1
    ensures r != [] ==> t.path in disk && r[0].path == t.path && r[0].lines != []
  {
    if t.path !in disk then []
    else
      var lines := MatchingLines(GetLines(disk[t.path]), t.term);
      if lines == [] then [] else [Match(t.path, lines)]
  }

  /** The records that running `ts` in this order appends. */
  function ResultsOf(disk: Disk, ts: seq<FileTask>): (r: seq<Match>)
    ensures |r| <= |ts|
    decreases |ts|
  {
    if ts == [] then [] else ResultsOf(disk, ts[..|ts| - 1]) + FileResult(disk, ts[|ts| - 1])
  }

  /** The number of regular files the counting pass finds. */
  function RegularCount(entries: seq<Entry>): (n: nat)
    ensures n <= |entries|
    decreases |entries|
  {
    if entries == [] then 0
    else RegularCount(entries[..|entries| - 1]) + (if entries[|entries| - 1].isRegularFile then 1 else 0)
  }

  /** The tasks the dispatch pass submits, in traversal order. */
  function Tasks(entries: seq<Entry>, term: string): (ts: seq<FileTask>)
    ensures |ts| <= |entries|
    decreases |entries|
  {
    if entries == [] then []
    else
      var e := entries[|entries| - 1];
      Tasks(entries[..|entries| - 1], term) + (if e.isRegularFile then [FileTask(e.path, term)] else [])
  }

  /**
   On the same tree the two passes agree: one task per counted regular file,
   each carrying a regular file's path and the search term, and every regular
   file gets a task.
   */
  lemma {:induction false} PassesAgree(entries: seq<Entry>, term: string)
    ensures |Tasks(entries, term)| == RegularCount(entries)
    ensures forall t :: t in Tasks(entries, term) ==> t.term == term && Entry(t.path, true) in entries
    ensures forall e :: e in entries && e.isRegularFile ==> FileTask(e.path, term) in Tasks(entries, term)
    decreases |entries|
  {
    if entries != [] {
      var prefix, last := entries[..|entries| - 1], entries[|entries| - 1];
      PassesAgree(prefix, term);
      assert entries == prefix + [last];
      assert forall e :: e in prefix ==> e in entries;
    }
  }

  /** The counting pass never counts fewer files over a longer stretch of the traversal. */
  lemma {:induction false} RegularCountMonotone(entries: seq<Entry>, i: nat, j: nat)
    requires i <= j <= |entries|
    ensures RegularCount(entries[..i]) <= RegularCount(entries[..j])
    decreases j
  {
    if i < j {
      RegularCountMonotone(entries, i, j - 1);
      assert entries[..j][..j - 1] == entries[..j - 1];
    }
  }

  /**
   Submission order is traversal order: the regular entry at position `k` is
   submitted as task number `RegularCount(entries[..k])`, the number of regular
   entries before it, and an earlier regular entry gets a smaller number.
   */
  lemma {:induction false} TasksInTraversalOrder(entries: seq<Entry>, term: string)
    ensures forall k :: 0 <= k < |entries| && entries[k].isRegularFile ==>
      RegularCount(entries[..k]) < |Tasks(entries, term)| &&
      Tasks(entries, term)[RegularCount(entries[..k])] == FileTask(entries[k].path, term)
    ensures forall i, j :: 0 <= i < j < |entries| && entries[i].isRegularFile ==>
      RegularCount(entries[..i]) < RegularCount(entries[..j])
    decreases |entries|
  {
    if entries != [] {
      var n := |entries| - 1;
      var prefix, last := entries[..n], entries[n];
      TasksInTraversalOrder(prefix, term);
      PassesAgree(prefix, term);
      PassesAgree(entries, term);
      var ts := Tasks(entries, term);
      assert ts[..|Tasks(prefix, term)|] == Tasks(prefix, term);
      forall k | 0 <= k < |entries| && entries[k].isRegularFile
        ensures RegularCount(entries[..k]) < |ts| && ts[RegularCount(entries[..k])] == FileTask(entries[k].path, term)
      {
        if k < n {
          assert entries[..k] == prefix[..k];
          assert prefix[k] == entries[k];
        } else {
          assert entries[..k] == prefix;
        }
      }
      forall i, j | 0 <= i < j < |entries| && entries[i].isRegularFile
        ensures RegularCount(entries[..i]) < RegularCount(entries[..j])
      {
        RegularCountMonotone(entries, i + 1, j);
        assert entries[..i + 1][..i] == entries[..i];
      }
    }
  }

  /**
   A record is appended exactly for the tasks whose file opens and has a
   matching line, and no task appends more than one record; the shape of each
   record is given by `FileResultShape`.
   */
  lemma {:induction false} ResultsOfCharacterised(disk: Disk, ts: seq<FileTask>)
    ensures |ResultsOf(disk, ts)| <= |ts|
    ensures forall m :: m in ResultsOf(disk, ts) <==> exists t :: t in ts && FileResult(disk, t) == [m]
    decreases |ts|
  {
    if ts != [] {
      var prefix, t := ts[..|ts| - 1], ts[|ts| - 1];
      ResultsOfCharacterised(disk, prefix);
      FileResultShape(disk, t);
      assert ts == prefix + [t];
      forall m | m in ResultsOf(disk, ts)
        ensures exists u :: u in ts && FileResult(disk, u) == [m]
      {
        if m in ResultsOf(disk, prefix) {
          var u :| u in prefix && FileResult(disk, u) == [m];
          assert u in ts;
        } else {
          assert FileResult(disk, t) == [m];
        }
      }
      forall m, u | u in ts && FileResult(disk, u) == [m]
        ensures m in ResultsOf(disk, ts)
      {
        if u != t {
          assert u in prefix;
        }
      }
    }
  }

  /** Every appended record names an openable file and lists its matching lines, ascending. */
  lemma FileResultShape(disk: Disk, t: FileTask)
    ensures |FileResult(disk, t)| <= 1
    ensures FileResult(disk, t) != [] <==>
      t.path in disk && exists i :: 0 <= i < |GetLines(disk[t.path])| && Contains(GetLines(disk[t.path])[i], t.term)
    ensures forall m :: m in FileResult(disk, t) ==> m.path == t.path && m.lines != [] && StrictlyAscending(m.lines)
  {
    if t.path in disk {
      var lines := GetLines(disk[t.path]);
      var matching := MatchingLines(lines, t.term);
      MatchingLinesAscending(lines, t.term);
      MatchingLinesMembership(lines, t.term);
      if matching != [] {
        var n := matching[0];
        assert n in matching;
        assert 0 <= n - 1 < |lines| && Contains(lines[n - 1], t.term);
        assert FileResult(disk, t) == [Match(t.path, matching)];
        assert t.path in disk && exists i :: 0 <= i < |GetLines(disk[t.path])| && Contains(GetLines(disk[t.path])[i], t.term);
      } else {
        forall i | 0 <= i < |lines|
          ensures !Contains(lines[i], t.term)
        {
          assert i + 1 !in matching;
        }
        assert FileResult(disk, t) == [];
      }
    }
  }

  class SearchEngine {
    var results: seq<Match>
    var filesProcessed: nat
    var totalFiles: nat

    constructor ()
      ensures results == [] && filesProcessed == 0 && totalFiles == 0
    {
      results := [];
      filesProcessed := 0;
      totalFiles := 0;
    }

    /**
     `searchInFile`: a file that cannot be opened, or has no matching line,
     leaves `results` alone and gives false; otherwise exactly one record with
     its matching lines is appended and the answer is true.
     */
    method SearchInFile(disk: Disk, path: string, term: string) returns (appended: bool)
      modifies this`results
      ensures appended <==> path in disk && MatchingLines(GetLines(disk[path]), term) != []
      ensures appended ==> results == old(results) + [Match(path, MatchingLines(GetLines(disk[path]), term))]
      ensures !appended ==> results == old(results)
    {
      if path !in disk {
        return false;
      }
      var lines := GetLines(disk[path]);
      var matching := MatchLines(lines, term);
      if matching != [] {
        results := results + [Match(path, matching)];
        return true;
      }
      return false;
    }

    /** The submitted task body: search the file, then count it as processed. */
    method RunTask(disk: Disk, t: FileTask)
      modifies this`results, this`filesProcessed
      ensures results == old(results) + FileResult(disk, t)
      ensures filesProcessed == old(filesProcessed) + 1
    {
      var _ := SearchInFile(disk, t.path, t.term);
      filesProcessed := filesProcessed + 1;
    }

    /** The counting pass: one increment of `totalFiles` per regular file. */
    method CountFiles(entries: seq<Entry>)
      modifies this`totalFiles
      ensures totalFiles == old(totalFiles) + RegularCount(entries)
    {
      var i := 0;
      while i < |entries|
        invariant 0 <= i <= |entries|
        invariant totalFiles == old(totalFiles) + RegularCount(entries[..i])
      {
        assert entries[..i + 1][..i] == entries[..i];
        if entries[i].isRegularFile {
          totalFiles := totalFiles + 1;
        }
        i := i + 1;
      }
      assert entries[..i] == entries;
    }

    /** The dispatch pass: one task per regular file, enqueued in traversal order. */
    method Dispatch(pool: ThreadPool<FileTask>, entries: seq<Entry>, term: string)
      requires pool.Valid()
      modifies pool
      ensures pool.Valid() && pool.stop == old(pool.stop) && pool.handedOut == old(pool.handedOut)
      ensures pool.tasks == old(pool.tasks) + Tasks(entries, term)
      ensures pool.submitted == old(pool.submitted) + Tasks(entries, term)
    {
      var i := 0;
      while i < |entries|
        invariant 0 <= i <= |entries|
        invariant pool.Valid() && pool.stop == old(pool.stop) && pool.handedOut == old(pool.handedOut)
        invariant pool.tasks == old(pool.tasks) + Tasks(entries[..i], term)
        invariant pool.submitted == old(pool.submitted) + Tasks(entries[..i], term)
      {
        assert entries[..i + 1][..i] == entries[..i];
        if entries[i].isRegularFile {
          pool.Enqueue(FileTask(entries[i].path, term));
        }
        i := i + 1;
      }
      assert entries[..i] == entries;
    }

    /**
     The completion wait: while `filesProcessed < totalFiles` the main thread
     polls and the workers take queued tasks and run them.
     */
    method AwaitCompletion(pool: ThreadPool<FileTask>, disk: Disk)
      requires pool.Valid() && !pool.stop
      requires filesProcessed + |pool.tasks| == totalFiles
      modifies this`results, this`filesProcessed, pool
      ensures pool.Valid() && !pool.stop && pool.tasks == [] && pool.submitted == old(pool.submitted)
      ensures filesProcessed == totalFiles
      ensures results == old(results) + ResultsOf(disk, pool.handedOut[|old(pool.handedOut)|..])
    {
      while filesProcessed < totalFiles
        invariant pool.Valid() && !pool.stop && pool.submitted == old(pool.submitted)
        invariant filesProcessed + |pool.tasks| == totalFiles
        invariant |old(pool.handedOut)| <= |pool.handedOut| && pool.handedOut[..|old(pool.handedOut)|] == old(pool.handedOut)
        invariant results == old(results) + ResultsOf(disk, pool.handedOut[|old(pool.handedOut)|..])
        decreases |pool.tasks|
      {
        ghost var before := pool.handedOut[|old(pool.handedOut)|..];
        var step := pool.WorkerStep();
        assert step.Run?;
        assert pool.handedOut[|old(pool.handedOut)|..] == before + [step.task];
        assert (before + [step.task])[..|before|] == before;
        RunTask(disk, step.task);
      }
    }

    /**
     `search` up to the report: count the regular files, submit one task per
     regular file to a fresh pool, wait until every one has been processed,
     then shut the pool down.
     */
    method Search(entries: seq<Entry>, disk: Disk, term: string)
      requires filesProcessed == totalFiles
      modifies this
      ensures totalFiles == old(totalFiles) + RegularCount(entries)
      ensures filesProcessed == totalFiles
      ensures results == old(results) + ResultsOf(disk, Tasks(entries, term))
    {
      CountFiles(entries);
      var pool := new ThreadPool<FileTask>();
      Dispatch(pool, entries, term);
      PassesAgree(entries, term);
      AwaitCompletion(pool, disk);
      assert pool.handedOut == pool.submitted == Tasks(entries, term);
      assert pool.handedOut[0..] == pool.handedOut;

      // The pool's destructor: set `stop`, then every worker leaves its loop.
      pool.Shutdown();
      var last := pool.WorkerStep();
      assert last == Exit;
    }
  }
}
