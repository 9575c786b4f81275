/**
 The per-file line matcher of `SearchEngine::searchInFile`: lines are numbered
 from 1 and the number of every line containing the search term is recorded.
 */
module Matcher {
  import opened Text

  /**
   Specification of the matcher: the 1-based numbers of the lines of `lines`
   that contain `term`, in the order the lines are read; at most one number
   per line.
   */
  function MatchingLines(lines: seq<string>, term: string): (matching: seq<nat>)
    ensures |matching| <= |lines|
    decreases |lines|
  {
    if lines == [] then []
    else
      var n := |lines|;
      MatchingLines(lines[..n - 1], term) + (if Contains(lines[n - 1], term) then [n] else [])
  }

  predicate StrictlyAscending(s: seq<nat>)
  {
    forall i, j :: 0 <= i < j < |s| ==> s[i] < s[j]
  }

  /** Every recorded number is a line number of the file, and they go up. */
  lemma {:induction false} MatchingLinesAscending(lines: seq<string>, term: string)
    ensures StrictlyAscending(MatchingLines(lines, term))
    ensures forall k :: k in MatchingLines(lines, term) ==> 1 <= k <= |lines|
    decreases |lines|
  {
    if lines != [] {
      var n := |lines|;
      var before := MatchingLines(lines[..n - 1], term);
      MatchingLinesAscending(lines[..n - 1], term);
      var r := MatchingLines(lines, term);
      forall i, j | 0 <= i < j < |r|
        ensures r[i] < r[j]
      {
        if j >= |before| {
          assert r[i] == before[i] && before[i] in before;
        }
      }
    }
  }

  /** Line `n` is recorded exactly when it contains the term. */
  lemma {:induction false} MatchingLinesMembership(lines: seq<string>, term: string)
    ensures forall n :: 1 <= n <= |lines| ==> (n in MatchingLines(lines, term) <==> Contains(lines[n - 1], term))
    decreases |lines|
  {
    if lines != [] {
      var m := |lines| - 1;
      var prefix := lines[..m];
      MatchingLinesMembership(prefix, term);
      MatchingLinesAscending(prefix, term);
    }
  }

  /** With the empty term every line is recorded, empty lines included. */
  lemma {:induction false} EmptyTermMatchesEveryLine(lines: seq<string>)
    ensures MatchingLines(lines, []) == seq(|lines|, i => i + 1)
    decreases |lines|
  {
    if lines != [] {
      var m := |lines| - 1;
      EmptyTermMatchesEveryLine(lines[..m]);
      EmptyTermFoundAtZero(lines[m]);
    }
  }

  /** The reading loop of `searchInFile`: numbers each line and records the matching ones. */
  method MatchLines(lines: seq<string>, term: string) returns (matching: seq<nat>)
    ensures matching == MatchingLines(lines, term)
    ensures StrictlyAscending(matching)
    ensures forall k :: k in matching ==> 1 <= k <= |lines|
    ensures forall n :: 1 <= n <= |lines| ==> (n in matching <==> Contains(lines[n - 1], term))
  {
    matching := [];
    var lineNumber := 0;
    while lineNumber < |lines|
      invariant 0 <= lineNumber <= |lines|
      invariant matching == MatchingLines(lines[..lineNumber], term)
    {
      var line := lines[lineNumber];
      lineNumber := lineNumber + 1;
      assert lines[..lineNumber][..lineNumber - 1] == lines[..lineNumber - 1];
      if Contains(line, term) {
        matching := matching + [lineNumber];
      }
    }
    assert lines[..lineNumber] == lines;
    MatchingLinesAscending(lines, term);
    MatchingLinesMembership(lines, term);
  }
}
