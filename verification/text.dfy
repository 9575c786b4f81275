/**
 The two library string operations the search engine depends on: the substring
 search `std::string::find` and the line splitting done by `std::getline`.
 */
module Text {

  datatype Option<T> = None | Some(value: T)

  /** `term` occurs in `line` at index `i`. */
  predicate OccursAt(line: string, term: string, i: nat)
  {
    i + |term| <= |line| && line[i..i + |term|] == term
  }

  /**
   `line.find(term, from)`: the lowest index at or after `from` where `term`
   occurs, or None where the library returns `npos`.
   */
  function FindFrom(line: string, term: string, from: nat): (r: Option<nat>)
    ensures r.Some? ==> from <= r.value && OccursAt(line, term, r.value)
    ensures r.Some? ==> forall j :: from <= j < r.value ==> !OccursAt(line, term, j)
    ensures r.None? ==> forall j :: from <= j ==> !OccursAt(line, term, j)
    decreases |line| - from
  {
    if from + |term| > |line| then None
    else if line[from..from + |term|] == term then Some(from)
    else FindFrom(line, term, from + 1)
  }

  /**
   The per-line test `line.find(searchTerm) != npos`; a term is only found in
   a line at least as long as it, and a line always contains itself.
   */
  function Contains(line: string, term: string): (found: bool)
    ensures found ==> |term| <= |line|
    ensures line == term ==> found
  {
    FindFrom(line, term, 0).Some?
  }

  /** The test is literal, case-sensitive substring containment. */
  lemma ContainsIffOccurs(line: string, term: string)
    ensures Contains(line, term) <==> exists i: nat :: OccursAt(line, term, i)
  {
    var r := FindFrom(line, term, 0);
    if r.Some? {
      assert OccursAt(line, term, r.value);
    }
  }

  /** The empty term is found at index 0 of every line, the empty line included. */
  lemma EmptyTermFoundAtZero(line: string)
    ensures FindFrom(line, [], 0) == Some(0)
    ensures Contains(line, [])
  {
    assert OccursAt(line, [], 0);
  }

  /** Index of the first '\n' in `s`, or `|s|` when there is none. */
  function NewlineIndex(s: string): (k: nat)
    ensures k <= |s|
    ensures forall i :: 0 <= i < k ==> s[i] != '\n'
    ensures k < |s| ==> s[k] == '\n'
  {
    if s == [] || s[0] == '\n' then 0 else 1 + NewlineIndex(s[1..])
  }

  /**
   The lines that repeated `std::getline` calls read from `text`: pieces
   separated by '\n'; a last piece without a '\n' is still a line, but the
   empty remainder after a final '\n' is not.
   */
  function GetLines(text: string): (lines: seq<string>)
    ensures forall i :: 0 <= i < |lines| ==> '\n' !in lines[i]
    decreases |text|
  {
    if text == [] then []
    else
      var k := NewlineIndex(text);
      [text[..k]] + (if k < |text| then GetLines(text[k + 1..]) else [])
  }

  /** Each line followed by a '\n', as a text file holding those lines is written. */
  function Unlines(lines: seq<string>): string
  {
    if lines == [] then "" else lines[0] + "\n" + Unlines(lines[1..])
  }

  lemma NewlineIndexAfterLine(line: string, rest: string)
    requires '\n' !in line
    requires rest == [] || rest[0] == '\n'
    ensures NewlineIndex(line + rest) == |line|
  {
    var s := line + rest;
    assert forall i :: 0 <= i < |line| ==> s[i] == line[i];
    if rest != [] {
      assert s[|line|] == '\n';
    }
  }

  /** Reading a line and its '\n' leaves the rest of the text to the later reads. */
  lemma GetLinesCons(line: string, rest: string)
    requires '\n' !in line
    ensures GetLines(line + "\n" + rest) == [line] + GetLines(rest)
  {
    var text := line + "\n" + rest;
    assert text == line + ("\n" + rest);
    NewlineIndexAfterLine(line, "\n" + rest);
    assert text[..|line|] == line;
    assert text[|line| + 1..] == rest;
  }

  /** A last line without a '\n' is read as a line of its own. */
  lemma GetLinesUnterminated(last: string)
    requires '\n' !in last
    ensures GetLines(last) == if last == [] then [] else [last]
  {
    if last != [] {
      NewlineIndexAfterLine(last, []);
      assert last + [] == last;
    }
  }

  /**
   `getline` gives back exactly the lines a file was written from, and an
   unterminated last line is read as one more line.
   */
  lemma {:induction false} GetLinesUnlines(lines: seq<string>, last: string)
    requires forall i :: 0 <= i < |lines| ==> '\n' !in lines[i]
    requires '\n' !in last
    ensures GetLines(Unlines(lines) + last) == lines + (if last == [] then [] else [last])
    decreases |lines|
  {
    if lines == [] {
      assert Unlines(lines) + last == last;
      GetLinesUnterminated(last);
    } else {
      var l, tail := lines[0], Unlines(lines[1..]);
      var rest := tail + last;
      assert Unlines(lines) == l + "\n" + tail;
      assert Unlines(lines) + last == l + "\n" + rest;
      GetLinesCons(l, rest);
      GetLinesUnlines(lines[1..], last);
      assert lines == [l] + lines[1..];
    }
  }
}
