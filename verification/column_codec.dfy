/** Spreadsheet column labels: `A` is column 0, `Z` column 25, `AA`
    column 26. Labels are read as bijective base-26 numerals whose digits
    `A`..`Z` stand for 1..26, after upper-casing. */
module ColumnCodec {
  import opened Strings

  predicate IsUpperLetters(s: string) {
    forall i :: 0 <= i < |s| ==> 'A' <= s[i] <= 'Z'
  }

  /** The digit a character stands for: `ord(c) - ord("A") + 1`. */
  function LetterDigit(c: char): int {
    c as int - 'A' as int + 1
  }

  /** The running `num = num * 26 + digit` over the whole name. An
      upper-case name of at least one letter is worth at least 1. */
  function Accumulate(s: string): (num: int)
    ensures IsUpperLetters(s) && |s| > 0 ==> num >= 1
    ensures IsUpperLetters(s) ==> num >= 0
  {
    if s == [] then 0
    else Accumulate(s[..|s| - 1]) * 26 + LetterDigit(s[|s| - 1])
  }

  /** `excel_column_letter_to_index`: upper-case the name, accumulate its
      digits and subtract one. The empty name gives -1. */
  function LetterToIndex(name: string): (index: int)
    ensures name == [] ==> index == -1
    ensures AllLetters(name) && |name| > 0 ==> index >= 0
  {
    Accumulate(Upper(name)) - 1
  }

  /** Standard column naming, the inverse of `LetterToIndex`. */
  function IndexToLetters(index: nat): (name: string)
    ensures |name| > 0 && IsUpperLetters(name)
  {
    if index < 26 then [('A' as int + index) as char]
    else IndexToLetters(index / 26 - 1) + [('A' as int + index % 26) as char]
  }

  lemma {:induction false} IndexRoundTrip(index: nat)
    ensures Accumulate(IndexToLetters(index)) == index + 1
  {
    if index >= 26 {
      var s := IndexToLetters(index);
      assert s[..|s| - 1] == IndexToLetters(index / 26 - 1);
      IndexRoundTrip(index / 26 - 1);
    }
  }

  /** Decoding the standard name of a column gives its index. */
  lemma LetterToIndexOfName(index: nat)
    ensures LetterToIndex(IndexToLetters(index)) == index
  {
    var s := IndexToLetters(index);
    assert Upper(s) == s;
    IndexRoundTrip(index);
  }

  lemma {:induction false} AccumulateRoundTrip(s: string)
    requires IsUpperLetters(s) && |s| > 0
    ensures IndexToLetters(Accumulate(s) - 1) == s
    decreases |s|
  {
    var p := s[..|s| - 1];
    var d := LetterDigit(s[|s| - 1]);
    var i := Accumulate(s) - 1;
    assert 1 <= d <= 26;
    if |p| == 0 {
      assert i == d - 1;
      assert s == [s[0]];
    } else {
      AccumulateRoundTrip(p);
      var a := Accumulate(p);
      assert a >= 1;
      assert i == (a - 1) * 26 + 26 + (d - 1);
      assert i / 26 == a && i % 26 == d - 1;
      assert s == p + [s[|s| - 1]];
    }
  }

  /** Every non-empty name names the column its index gives back, in
      upper case. */
  lemma NameOfLetterIndex(name: string)
    requires AllLetters(name) && |name| > 0
    ensures LetterToIndex(name) >= 0
    ensures IndexToLetters(LetterToIndex(name)) == Upper(name)
  {
    AccumulateRoundTrip(Upper(name));
  }

  /** Upper- and lower-case spellings of a name decode alike. */
  lemma LetterToIndexCaseInsensitive(name: string)
    ensures LetterToIndex(name) == LetterToIndex(Upper(name))
  {
    UpperIdempotent(name);
  }

  /** Two labels that decode to the same index are the same name up to
      case. */
  lemma LetterToIndexInjective(a: string, b: string)
    requires AllLetters(a) && |a| > 0 && AllLetters(b) && |b| > 0
    requires LetterToIndex(a) == LetterToIndex(b)
    ensures Upper(a) == Upper(b)
  {
    NameOfLetterIndex(a);
    NameOfLetterIndex(b);
  }

  lemma LetterToIndexExamples()
    ensures LetterToIndex("") == -1
    ensures LetterToIndex("A") == 0 && LetterToIndex("a") == 0
    ensures LetterToIndex("Z") == 25
    ensures LetterToIndex("AA") == 26
    ensures LetterToIndex("AZ") == 51
    ensures LetterToIndex("BA") == 52
  {
    assert Upper("a") == "A";
    assert Upper("A") == "A";
    assert Upper("Z") == "Z";
    assert Upper("AA") == "AA";
    assert Upper("AZ") == "AZ";
    assert Upper("BA") == "BA";
    assert "AA"[..1] == "A";
    assert "AZ"[..1] == "A";
    assert "BA"[..1] == "B";
  }
}
