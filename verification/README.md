# Parallel file search: a Dafny model of its sequential core

The program searches a directory tree for a term. It counts the regular files,
submits one task per file to a thread pool, and waits until every file has been
processed. Each task reads its file line by line and records the 1-based
numbers of the lines that contain the term. It appends `(path, line numbers)`
to a shared results list when at least one line matched. The program then lists
each matching file with its line numbers joined by ", ".

This project models the sequential parts of that program and proves what they
promise:

- `text.dfy` (module `Text`) models the library operations the matcher relies
  on: `std::string::find` (`FindFrom`, `Contains`) and the line splitting of
  repeated `std::getline` calls (`GetLines`).
- `matcher.dfy` (module `Matcher`) models the reading loop of
  `SearchEngine::searchInFile` (`MatchLines`) against the specification
  function `MatchingLines`.
- `render.dfy` (module `Render`) models the loop that prints a file's matching
  line numbers (`RenderLineNumbers`) against `JoinedLineNumbers`. A parser,
  `ParseLineNumbers`, is its left inverse (`ParseRender`): the rendered text
  reads back as the list.
- `worker_pool.dfy` (module `WorkerPool`) models the `ThreadPool` queue
  discipline. A `PoolState` value holds the FIFO of tasks and the `stop` flag.
  `Next` is one pass of a worker's loop body and `Work` is n such passes. The
  `ThreadPool` class holds the same fields and updates them in place, with ghost
  histories of the tasks submitted and the tasks handed out.
- `engine.dfy` (module `Engine`) models the `SearchEngine` class: its `results`
  list, the `files_processed` and `total_files` counters, `searchInFile`, the
  task body, the counting pass, the dispatch pass, the completion wait, and the
  pool's destructor.

Inputs the program gets from its environment are parameters here:

- The directory traversal is a sequence of `Entry(path, isRegularFile)`. Both
  passes walk the same sequence.
- The file system is a `Disk`, a map from path to raw contents. A path that is
  not in the map cannot be opened.

The threads are replaced by one sequential interleaving. Each pass of the main
thread's wait loop is one worker step, followed by running the task that step
took.

With the empty search term the code records every line, including empty ones,
because `find("")` returns 0 (`EmptyTermMatchesEveryLine`).

## Model

| member | source | states |
|---|---|---|
| `Text.FindFrom` | searchengine.cpp:83 | `find` gives the lowest position at or after the start where the term occurs, or none (`npos`) when there is no occurrence |
| `Text.Contains` | searchengine.cpp:83 | the per-line test `find(term) != npos`, the reference definition whose meaning `ContainsIffOccurs` proves; a found term is no longer than the line, and a line always contains itself |
| `Text.ContainsIffOccurs` | searchengine.cpp:83 | the test `find(term) != npos` holds exactly when the term occurs literally, case-sensitively, somewhere in the line |
| `Text.EmptyTermFoundAtZero` | searchengine.cpp:83 | the empty term is found at index 0 of every line, the empty line included |
| `Text.GetLines` | searchengine.cpp:81 | no line that `getline` yields contains a newline |
| `Text.GetLinesCons` | searchengine.cpp:81 | reading one line and its newline leaves the rest of the text for the following reads |
| `Text.GetLinesUnterminated` | searchengine.cpp:81 | a last line without a newline is still read, and an empty remainder yields no line |
| `Text.GetLinesUnlines` | searchengine.cpp:81 | a file written from lines with no newlines in them, with an optional unterminated last line, reads back as exactly those lines |
| `Matcher.MatchingLines` | searchengine.cpp:77-86 | the reference definition of the list the reading loop builds, with at most one number per line; `MatchingLinesAscending` and `MatchingLinesMembership` prove its order and its if-and-only-if |
| `Matcher.MatchingLinesAscending` | searchengine.cpp:78-86 | the recorded numbers are strictly ascending and each lies between 1 and the number of lines |
| `Matcher.MatchingLinesMembership` | searchengine.cpp:81-85 | line n is recorded if and only if line n contains the term |
| `Matcher.EmptyTermMatchesEveryLine` | searchengine.cpp:83 | with the empty term the recorded numbers are exactly 1, 2, ..., number of lines |
| `Matcher.MatchLines` | searchengine.cpp:77-86 | the reading loop returns `MatchingLines`: ascending, within 1..number of lines, and containing n exactly when line n contains the term |
| `Render.Decimal` | searchengine.cpp:144 | a number is written as a non-empty run of decimal digits with no leading zero |
| `Render.DecimalRoundTrip` | searchengine.cpp:144 | the decimal text of a number denotes that number |
| `Render.JoinedLineNumbers` | searchengine.cpp:143-146 | the reference definition of the text the loop writes: empty exactly when there are no numbers, at least one digit per number plus a two-character separator between neighbours; `ParseRender` proves it loses nothing |
| `Render.RenderAppend` | searchengine.cpp:143-146 | writing one more number adds exactly one ", " separator and that number at the end |
| `Render.RenderLineNumbers` | searchengine.cpp:143-146 | the index loop writes exactly `JoinedLineNumbers`, with a separator after every number but the last |
| `Render.RenderSeparators` | searchengine.cpp:143-146 | n >= 1 numbers give exactly n - 1 separators and text that ends in a digit (no trailing separator), and an empty list gives no text |
| `Render.ParseRender` | searchengine.cpp:143-146 | the rendered text reads back as the same list of numbers, in the same order, so the rendering loses nothing |
| `WorkerPool.Enqueued` | searchengine.cpp:47-52 | the task is placed behind every queued task, which stay in order, and `stop` is unchanged; `EnqueueIsFifo` proves it is handed out right after them |
| `WorkerPool.Stopped` | searchengine.cpp:55-58 | the destructor sets `stop` and keeps the queue; `DrainAfterStop` proves the queue is still drained |
| `WorkerPool.Next` | searchengine.cpp:29-39 | a worker step exits if and only if `stop` is set and the queue is empty, and waits if and only if `stop` is clear and the queue is empty; otherwise it takes the front task and removes exactly that task |
| `WorkerPool.Work` | searchengine.cpp:29-42 | n passes of the worker loop give n steps, keep `stop` and never lengthen the queue; `WorkIsFifo`, `WorkSplit` and `ExitOnlyAfterDrain` prove its order |
| `WorkerPool.WorkIsFifo` | searchengine.cpp:36-39 | while tasks are queued, k steps hand out the first k tasks in queue order and leave the rest queued, whether or not `stop` is set |
| `WorkerPool.EnqueueIsFifo` | searchengine.cpp:47-52 | a task enqueued at the back is handed out right after every task queued before it |
| `WorkerPool.DrainAfterStop` | searchengine.cpp:55-58 | after `stop` is set, the tasks still queued are all handed out in order, and only then does the worker exit, leaving an empty queue |
| `WorkerPool.NoExitWhileRunning` | searchengine.cpp:33-37 | a worker never exits while `stop` is clear |
| `WorkerPool.ExitOnlyAfterDrain` | searchengine.cpp:36-37 | an exit at step k implies that `stop` was set and that every task queued at the start was handed out, in order, before step k |
| `WorkerPool.ThreadPool.constructor` | searchengine.cpp:26 | the pool starts with `stop` clear and an empty queue |
| `WorkerPool.ThreadPool.Enqueue` | searchengine.cpp:47-53 | the task is appended at the back; the earlier tasks, `stop` and the handed-out history are unchanged; no task is lost or taken twice |
| `WorkerPool.ThreadPool.WorkerStep` | searchengine.cpp:29-40 | the object's new state and the step are those of `Next`; a task handed out is recorded once in the history, and the history plus the queue remain everything enqueued |
| `WorkerPool.ThreadPool.Shutdown` | searchengine.cpp:55-59 | the destructor sets `stop` and leaves the queue as it is |
| `Engine.FileResult` | searchengine.cpp:88-93 | the reference definition of what one file appends: at most one record, only for a file that opens, naming that file with a non-empty list; `FileResultShape` proves when it appears |
| `Engine.ResultsOf` | searchengine.cpp:88-93 | the records running the tasks in order appends, no more than one per task; `ResultsOfCharacterised` proves which records appear |
| `Engine.RegularCount` | searchengine.cpp:99-103 | the count of regular files the first pass finds, at most the number of entries; `PassesAgree` ties it to the dispatch pass |
| `Engine.Tasks` | searchengine.cpp:111-124 | the tasks the dispatch pass submits in traversal order, at most one per entry; `PassesAgree` proves one task per regular file and nothing else, and `TasksInTraversalOrder` proves their order |
| `Engine.FileResultShape` | searchengine.cpp:88-93 | a file gives at most one record; it gives one exactly when it opens and some line contains the term; the record has the file's path and a non-empty ascending list |
| `Engine.ResultsOfCharacterised` | searchengine.cpp:88-93 | running tasks appends no more records than there are tasks; a record appears exactly when some task's file produced it |
| `Engine.PassesAgree` | searchengine.cpp:99-113 | on the same tree the dispatch pass submits exactly as many tasks as the counting pass counts; each task is for a regular file and carries the search term, and every regular file gets a task |
| `Engine.RegularCountMonotone` | searchengine.cpp:99-103 | the counting pass counts no fewer files over a longer prefix of the traversal |
| `Engine.TasksInTraversalOrder` | searchengine.cpp:111-113 | the regular entry at position k is submitted as task number "regular entries before k", so an earlier regular entry is submitted before a later one |
| `Engine.SearchEngine.constructor` | searchengine.cpp:69-71 | results start empty and both counters start at 0 |
| `Engine.SearchEngine.SearchInFile` | searchengine.cpp:73-94 | the answer is true exactly when the file opens and some line matches; then exactly one record `(path, matching lines)` is appended; otherwise `results` is unchanged (an unopenable file included) |
| `Engine.SearchEngine.RunTask` | searchengine.cpp:113-115 | a task appends its file's record, if any, and increments `files_processed` exactly once, whether or not the file matched or opened |
| `Engine.SearchEngine.CountFiles` | searchengine.cpp:99-103 | `total_files` grows by the number of regular files in the tree |
| `Engine.SearchEngine.Dispatch` | searchengine.cpp:111-124 | one task per regular file is appended to the pool's queue, in traversal order; `stop` and the pool's history are otherwise unchanged |
| `Engine.SearchEngine.AwaitCompletion` | searchengine.cpp:127-129 | the wait ends, with `files_processed == total_files` and the queue empty; `results` gains the records of the handed-out tasks in the order they were handed out |
| `Engine.SearchEngine.Search` | searchengine.cpp:97-129 | after the search `total_files` counts the tree's regular files, `files_processed` equals it, and `results` holds exactly the records of the matching files |

## Left out

- Threads, `std::mutex`, `std::condition_variable` and `std::atomic` are not modelled, and neither are interleavings. Blocking on the condition variable is the `Wait` step. The model runs the tasks in submission order, while the program appends results in completion order, which is not determined.
- The pool's worker count (`std::thread::hardware_concurrency()`) is not modelled: one abstract worker takes every step. A worker count of 0 would leave the tasks unrun and the wait loop spinning forever; the model does not capture that case.
- The pool runs arbitrary closures in the program. In the model a task is a `FileTask` (path and term), and the engine runs it (`RunTask`) right after the worker step that took it.
- Directory traversal (`recursive_directory_iterator`, `is_regular_file`, `exists`) is a parameter. Both passes walk the same entry sequence, so a tree that changes between the passes is not modelled.
- Strings are bytes in the program: a Dafny `char` here stands for one byte of a `std::string`, so `FindFrom` is a byte-level substring search and `GetLines` splits on the byte '\n', as `find` and `getline` do. No operation depends on the alphabet, so nothing else changes.
- File input is a parameter: either the path cannot be opened, or its raw contents are split the way `getline` splits them. Read errors in the middle of a file are not modelled.
- The progress line (a float percentage), the timing with `std::chrono`, the 100 ms sleep, and the report lines other than the line-number list ("Search completed", "Found N files", "File: ...") are not modelled.
- `main`'s argument and directory checks and its exception handlers are not modelled.
- Integers are unbounded: an `int` line number or counter overflowing is not modelled.
- `Engine.SearchEngine.Search` requires `files_processed == total_files` on entry. A fresh engine meets it, and so does an engine after each completed search. Otherwise the program's wait loop could not terminate.
