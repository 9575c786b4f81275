/**
 Rendering of a file's matching line numbers in the result listing of
 `SearchEngine::search`: the numbers in decimal, separated by ", ", with no
 separator after the last one. A parser for that text is the inverse used to
 state that the rendering loses nothing.
 */
module Render {
  import opened Text

  predicate IsDigit(c: char)
  {
    '0' <= c <= '9'
  }

  predicate AllDigits(s: string)
  {
    forall i :: 0 <= i < |s| ==> IsDigit(s[i])
  }

  function DigitChar(d: nat): (c: char)
    requires d < 10
    ensures IsDigit(c)
  {
    ('0' as int + d) as char
  }

  function DigitValue(c: char): nat
    requires IsDigit(c)
  {
    c as int - '0' as int
  }

  /** How `operator<<` writes a non-negative integer: decimal, no leading zero. */
  function Decimal(n: nat): (s: string)
    ensures s != [] && AllDigits(s)
    ensures s[0] == '0' ==> n == 0
  {
    if n < 10 then [DigitChar(n)] else Decimal(n / 10) + [DigitChar(n % 10)]
  }

  /** The number a string of decimal digits denotes. */
  function DigitsValue(s: string): nat
    requires AllDigits(s)
  {
    if s == [] then 0 else DigitsValue(s[..|s| - 1]) * 10 + DigitValue(s[|s| - 1])
  }

  lemma {:induction false} DecimalRoundTrip(n: nat)
    ensures DigitsValue(Decimal(n)) == n
  {
    if n >= 10 {
      var s := Decimal(n);
      assert s[..|s| - 1] == Decimal(n / 10);
      DecimalRoundTrip(n / 10);
    }
  }

  /**
   The text the result loop writes after "  Matching lines: ": empty exactly
   for no numbers, and at least one digit per number plus a two-character
   separator between neighbours.
   */
  function JoinedLineNumbers(nums: seq<nat>): (text: string)
    ensures text == [] <==> nums == []
    ensures |text| >= 3 * |nums| - 2
  {
    if |nums| == 0 then ""
    else if |nums| == 1 then Decimal(nums[0])
    else Decimal(nums[0]) + ", " + JoinedLineNumbers(nums[1..])
  }

  /** Appending a number adds one separator and the number. */
  lemma {:induction false} RenderAppend(nums: seq<nat>, x: nat)
    requires nums != []
    ensures JoinedLineNumbers(nums + [x]) == JoinedLineNumbers(nums) + ", " + Decimal(x)
    decreases |nums|
  {
    if |nums| > 1 {
      assert (nums + [x])[1..] == nums[1..] + [x];
      RenderAppend(nums[1..], x);
    }
  }

  /** The index loop over the matching lines, separator after every number but the last. */
  method RenderLineNumbers(nums: seq<nat>) returns (out: string)
    ensures out == JoinedLineNumbers(nums)
  {
    out := "";
    var i := 0;
    while i < |nums|
      invariant 0 <= i <= |nums|
      invariant out == if i == 0 then "" else JoinedLineNumbers(nums[..i]) + (if i < |nums| then ", " else "")
    {
      if i > 0 {
        RenderAppend(nums[..i], nums[i]);
        assert nums[..i] + [nums[i]] == nums[..i + 1];
      } else {
        assert nums[..1] == [nums[0]];
      }
      out := out + Decimal(nums[i]);
      if i < |nums| - 1 {
        out := out + ", ";
      }
      i := i + 1;
    }
    assert nums[..|nums|] == nums;
  }

  function CountChar(s: string, c: char): nat
  {
    if s == [] then 0 else (if s[0] == c then 1 else 0) + CountChar(s[1..], c)
  }

  lemma {:induction false} CountCharConcat(a: string, b: string, c: char)
    ensures CountChar(a + b, c) == CountChar(a, c) + CountChar(b, c)
    decreases |a|
  {
    if a == [] {
      assert a + b == b;
    } else {
      assert (a + b)[0] == a[0];
      assert (a + b)[1..] == a[1..] + b;
      CountCharConcat(a[1..], b, c);
    }
  }

  lemma {:induction false} CountCharDigits(s: string)
    requires AllDigits(s)
    ensures CountChar(s, ',') == 0
    decreases |s|
  {
    if s != [] {
      CountCharDigits(s[1..]);
    }
  }

  /**
   n >= 1 numbers are written with exactly n - 1 separators and the text ends
   with a digit, so there is no trailing separator; no numbers give no text.
   */
  lemma {:induction false} RenderSeparators(nums: seq<nat>)
    ensures nums == [] <==> JoinedLineNumbers(nums) == []
    ensures nums != [] ==> CountChar(JoinedLineNumbers(nums), ',') == |nums| - 1
    ensures nums != [] ==> IsDigit(JoinedLineNumbers(nums)[|JoinedLineNumbers(nums)| - 1])
    decreases |nums|
  {
    if |nums| == 1 {
      CountCharDigits(Decimal(nums[0]));
    } else if |nums| > 1 {
      var head := Decimal(nums[0]);
      RenderSeparators(nums[1..]);
      CountCharDigits(head);
      CountCharConcat(head, ", ", ',');
      CountCharConcat(head + ", ", JoinedLineNumbers(nums[1..]), ',');
    }
  }

  /** The longest prefix of `s` made of digits. */
  function LeadingDigits(s: string): (d: string)
    ensures |d| <= |s| && d == s[..|d|] && AllDigits(d)
    ensures |d| < |s| ==> !IsDigit(s[|d|])
  {
    if s == [] || !IsDigit(s[0]) then [] else [s[0]] + LeadingDigits(s[1..])
  }

  /** Reads back a non-empty rendered list: numbers separated by ", ". */
  function ParseItems(s: string): Option<seq<nat>>
    decreases |s|
  {
    var d := LeadingDigits(s);
    if d == [] then None
    else
      var rest := s[|d|..];
      if rest == [] then Some([DigitsValue(d)])
      else if |rest| >= 2 && rest[0] == ',' && rest[1] == ' ' then
        match ParseItems(rest[2..])
        case None => None
        case Some(tail) => Some([DigitsValue(d)] + tail)
      else None
  }

  /** Reads back a rendered list of line numbers; the empty text is the empty list. */
  function ParseLineNumbers(s: string): Option<seq<nat>>
  {
    if s == [] then Some([]) else ParseItems(s)
  }

  /** A run of digits ends where a non-digit or the end of the text comes. */
  lemma {:induction false} LeadingDigitsOfDigits(a: string, rest: string)
    requires AllDigits(a)
    requires rest == [] || !IsDigit(rest[0])
    ensures LeadingDigits(a + rest) == a
    decreases |a|
  {
    if a == [] {
      assert a + rest == rest;
    } else {
      assert (a + rest)[0] == a[0];
      assert (a + rest)[1..] == a[1..] + rest;
      LeadingDigitsOfDigits(a[1..], rest);
      assert a == [a[0]] + a[1..];
    }
  }

  /** The rendered text of any list of line numbers reads back as that list. */
  lemma {:induction false} ParseRender(nums: seq<nat>)
    ensures ParseLineNumbers(JoinedLineNumbers(nums)) == Some(nums)
    decreases |nums|
  {
    if nums != [] {
      var head := Decimal(nums[0]);
      DecimalRoundTrip(nums[0]);
      if |nums| == 1 {
        assert head + [] == head;
        LeadingDigitsOfDigits(head, []);
        assert nums == [nums[0]];
      } else {
        var tail := JoinedLineNumbers(nums[1..]);
        var s := head + (", " + tail);
        assert JoinedLineNumbers(nums) == s;
        LeadingDigitsOfDigits(head, ", " + tail);
        assert s[|head|..] == ", " + tail;
        assert (", " + tail)[2..] == tail;
        ParseRender(nums[1..]);
        RenderSeparators(nums[1..]);
        assert nums == [nums[0]] + nums[1..];
      }
    }
  }
}
