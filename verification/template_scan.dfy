/** The template scanner. A template is read left to right and split into
    non-overlapping tokens of three shapes: a run of letters is a column
    reference, a double-quoted text is a literal, and `[MODE.LETTERS]` is a
    directive. Every other character is skipped and yields nothing. */
module TemplateScan {
  import opened Strings

  datatype Token =
    | Column(letters: string)
    | Literal(quoted: string)
    | Directive(mode: string, letters: string)

  /** The shapes the scanner produces: non-empty letter runs, a literal
      that starts and ends with its only two quotes, and a directive made of
      two non-empty letter runs. */
  predicate WellFormedToken(t: Token) {
    match t
    case Column(l) => |l| > 0 && AllLetters(l)
    case Literal(q) => |q| >= 2 && q[0] == '"' && q[|q| - 1] == '"' && '"' !in q[1..|q| - 1]
    case Directive(m, l) => |m| > 0 && AllLetters(m) && |l| > 0 && AllLetters(l)
  }

  /** The template text a token was read from. */
  function TokenText(t: Token): string {
    match t
    case Column(l) => l
    case Literal(q) => q
    case Directive(m, l) => "[" + m + "." + l + "]"
  }

  /** Length of the longest run of letters that starts `s`. */
  function LetterRun(s: string): (n: nat)
    ensures n <= |s| && AllLetters(s[..n])
    ensures n < |s| ==> !IsAsciiLetter(s[n])
  {
    if |s| > 0 && IsAsciiLetter(s[0]) then
      var n := 1 + LetterRun(s[1..]);
      assert s[..n] == [s[0]] + s[1..][..n - 1];
      n
    else 0
  }

  /** Position of the first double quote in `s`. */
  function QuoteIndex(s: string): (r: Option<nat>)
    ensures r.Some? ==> r.value < |s| && s[r.value] == '"' && '"' !in s[..r.value]
    ensures r.None? ==> '"' !in s
  {
    if s == [] then None
    else if s[0] == '"' then Some(0)
    else
      match QuoteIndex(s[1..])
      case None => assert s == [s[0]] + s[1..]; None
      case Some(j) => assert s[..j + 1] == [s[0]] + s[1..][..j]; Some(j + 1)
  }

  datatype DirectiveMatch = DirectiveMatch(mode: string, letters: string, length: nat)

  /** `[A-Za-z]+\]` at the start of `v`: the number of letters. */
  function MatchClose(v: string): (r: Option<nat>)
    ensures r.Some? ==> 0 < r.value < |v| && AllLetters(v[..r.value]) && v[r.value] == ']'
  {
    var b := LetterRun(v);
    if b > 0 && b < |v| && v[b] == ']' then Some(b) else None
  }

  /** `[A-Za-z]+\.[A-Za-z]+\]` at the start of `u`. */
  function MatchDirectiveBody(u: string): (r: Option<DirectiveMatch>)
    ensures r.Some? ==> && WellFormedToken(Directive(r.value.mode, r.value.letters))
                        && 3 <= r.value.length <= |u| + 1
                        && u[..r.value.length - 1] == r.value.mode + "." + r.value.letters + "]"
  {
    var a := LetterRun(u);
    if a > 0 && a < |u| && u[a] == '.' then
      match MatchClose(u[a + 1..])
      case Some(b) =>
        var m := u[..a];
        var l := u[a + 1..][..b];
        assert u[..a + b + 2] == m + "." + l + "]";
        Some(DirectiveMatch(m, l, a + b + 3))
      case None => None
    else None
  }

  /** `\[[A-Za-z]+\.[A-Za-z]+\]` at the start of `s`. */
  function MatchDirective(s: string): (r: Option<DirectiveMatch>)
    ensures r.Some? ==> && WellFormedToken(Directive(r.value.mode, r.value.letters))
                        && 0 < r.value.length <= |s|
                        && s[..r.value.length] == TokenText(Directive(r.value.mode, r.value.letters))
  {
    if |s| > 0 && s[0] == '[' then
      var r := MatchDirectiveBody(s[1..]);
      if r.Some? then
        assert s[..r.value.length] == "[" + s[1..][..r.value.length - 1];
        r
      else r
    else None
  }

  /** The tokens of a template, in order. Every token has one of the three
      shapes; a quote without a closing quote and a `[` that does not open
      a directive are skipped like any other character. */
  function Scan(s: string): (ts: seq<Token>)
    ensures forall i :: 0 <= i < |ts| ==> WellFormedToken(ts[i])
    decreases |s|
  {
    if s == [] then []
    else if IsAsciiLetter(s[0]) then
      var n := LetterRun(s);
      [Column(s[..n])] + Scan(s[n..])
    else if s[0] == '"' then
      match QuoteIndex(s[1..])
      case Some(j) =>
        var q := s[..j + 2];
        assert q[1..|q| - 1] == s[1..][..j];
        [Literal(q)] + Scan(s[j + 2..])
      case None => Scan(s[1..])
    else if s[0] == '[' then
      match MatchDirective(s)
      case Some(d) => [Directive(d.mode, d.letters)] + Scan(s[d.length..])
      case None => Scan(s[1..])
    else Scan(s[1..])
  }

  /** A template made of the given tokens, each followed by one space. */
  function Unparse(ts: seq<Token>): string {
    if ts == [] then "" else TokenText(ts[0]) + " " + Unparse(ts[1..])
  }

  lemma {:induction false} LetterRunExact(s: string, n: nat)
    requires n <= |s| && AllLetters(s[..n])
    requires n < |s| ==> !IsAsciiLetter(s[n])
    ensures LetterRun(s) == n
    decreases n
  {
    if n > 0 {
      assert IsAsciiLetter(s[..n][0]);
      assert s[1..][..n - 1] == s[..n][1..];
      LetterRunExact(s[1..], n - 1);
    } else if |s| > 0 {
      assert !IsAsciiLetter(s[0]);
    }
  }

  lemma {:induction false} QuoteIndexExact(s: string, j: nat)
    requires j < |s| && s[j] == '"' && '"' !in s[..j]
    ensures QuoteIndex(s) == Some(j)
    decreases j
  {
    if j > 0 {
      assert s[0] == s[..j][0];
      assert s[1..][..j - 1] == s[..j][1..];
      QuoteIndexExact(s[1..], j - 1);
    }
  }

  lemma SkipSpace(rest: string)
    ensures Scan(" " + rest) == Scan(rest)
  {
    assert (" " + rest)[1..] == rest;
  }

  /** Nothing can extend a letter run at the start of `rest`. */
  predicate EndsRun(rest: string) {
    rest == [] || !IsAsciiLetter(rest[0])
  }

  /** A letter run ends at the first non-letter, which is left for the
      next token. */
  lemma ScanColumn(l: string, rest: string)
    requires WellFormedToken(Column(l)) && EndsRun(rest)
    ensures Scan(l + rest) == [Column(l)] + Scan(rest)
  {
    var s := l + rest;
    assert s[..|l|] == l;
    assert s[|l|..] == rest;
    assert s[0] == l[0];
    LetterRunExact(s, |l|);
  }

  /** A literal ends at its closing quote, whatever follows. */
  lemma ScanLiteral(q: string, rest: string)
    requires WellFormedToken(Literal(q))
    ensures Scan(q + rest) == [Literal(q)] + Scan(rest)
  {
    var s := q + rest;
    var k := |q|;
    assert s[..k] == q;
    assert s[k..] == rest;
    assert s[0] == '"';
    assert s[1..][..k - 2] == q[1..k - 1];
    QuoteIndexExact(s[1..], k - 2);
  }

  lemma MatchCloseExact(l: string, rest: string)
    requires |l| > 0 && AllLetters(l)
    ensures MatchClose(l + ("]" + rest)) == Some(|l|)
  {
    var v := l + ("]" + rest);
    assert v[..|l|] == l && v[|l|] == ']';
    LetterRunExact(v, |l|);
  }

  lemma MatchBodyExact(m: string, l: string, rest: string)
    requires WellFormedToken(Directive(m, l))
    ensures MatchDirectiveBody(m + ("." + (l + ("]" + rest))))
            == Some(DirectiveMatch(m, l, |m| + |l| + 3))
  {
    var v := l + ("]" + rest);
    var u := m + ("." + v);
    var a := |m|;
    assert u[..a] == m && u[a] == '.';
    LetterRunExact(u, a);
    assert u[a + 1..] == v;
    MatchCloseExact(l, rest);
    assert v[..|l|] == l;
  }

  lemma MatchDirectiveExact(m: string, l: string, rest: string)
    requires WellFormedToken(Directive(m, l))
    ensures MatchDirective(TokenText(Directive(m, l)) + rest)
            == Some(DirectiveMatch(m, l, |m| + |l| + 3))
  {
    var u := m + ("." + (l + ("]" + rest)));
    var s := "[" + u;
    assert s == TokenText(Directive(m, l)) + rest;
    assert s[1..] == u;
    MatchBodyExact(m, l, rest);
  }

  /** A directive ends at its closing bracket, whatever follows. */
  lemma ScanDirective(m: string, l: string, rest: string)
    requires WellFormedToken(Directive(m, l))
    ensures Scan(TokenText(Directive(m, l)) + rest) == [Directive(m, l)] + Scan(rest)
  {
    var text := TokenText(Directive(m, l));
    var s := text + rest;
    MatchDirectiveExact(m, l, rest);
    assert s[0] == '[';
    assert s[|text|..] == rest;
  }

  /** A token's own text scans back to that token, followed by the scan of
      whatever comes next; a column token only needs the next character
      not to be a letter. */
  lemma ScanToken(t: Token, rest: string)
    requires WellFormedToken(t)
    requires t.Column? ==> EndsRun(rest)
    ensures Scan(TokenText(t) + rest) == [t] + Scan(rest)
  {
    match t
    case Column(l) => ScanColumn(l, rest);
    case Literal(q) => ScanLiteral(q, rest);
    case Directive(m, l) => ScanDirective(m, l, rest);
  }

  /** Scanning the text of well-formed tokens, each followed by a space,
      gives exactly those tokens back. */
  lemma {:induction false} ScanRoundTrip(ts: seq<Token>)
    requires forall i :: 0 <= i < |ts| ==> WellFormedToken(ts[i])
    ensures Scan(Unparse(ts)) == ts
  {
    if ts != [] {
      var rest := Unparse(ts[1..]);
      assert Unparse(ts) == TokenText(ts[0]) + (" " + rest);
      ScanToken(ts[0], " " + rest);
      SkipSpace(rest);
      ScanRoundTrip(ts[1..]);
    }
  }

  /** The tokens' texts written back to back, with no separator. */
  function Join(ts: seq<Token>): string {
    if ts == [] then "" else TokenText(ts[0]) + Join(ts[1..])
  }

  /** No column token is directly followed by another one: their letters
      would run together into a single token. */
  predicate Separable(ts: seq<Token>) {
    forall i :: 0 <= i < |ts| - 1 && ts[i].Column? ==> !ts[i + 1].Column?
  }

  /** The text of a token that is not a column starts with `"` or `[`. */
  lemma JoinStart(ts: seq<Token>)
    requires ts != [] && !ts[0].Column? && WellFormedToken(ts[0])
    ensures EndsRun(Join(ts))
  {
    assert Join(ts)[0] == TokenText(ts[0])[0];
  }

  /** Written back to back, tokens scan back as they were, as long as no
      two columns touch: `"Hi "A" bye"` is a literal, a column and a
      literal. */
  lemma {:induction false} ScanJoinRoundTrip(ts: seq<Token>)
    requires forall i :: 0 <= i < |ts| ==> WellFormedToken(ts[i])
    requires Separable(ts)
    ensures Scan(Join(ts)) == ts
  {
    if ts != [] {
      var rest := ts[1..];
      assert Separable(rest) by {
        forall i | 0 <= i < |rest| - 1 && rest[i].Column?
          ensures !rest[i + 1].Column?
        {
          assert rest[i] == ts[i + 1] && rest[i + 1] == ts[i + 2];
        }
      }
      if ts[0].Column? && rest != [] {
        assert !ts[1].Column?;
        JoinStart(rest);
      }
      ScanToken(ts[0], Join(rest));
      ScanJoinRoundTrip(rest);
    }
  }

  /** A quote with no closing quote after it yields no literal: it is
      skipped like any other character. */
  lemma ScanUnclosedQuote(s: string)
    requires '"' !in s
    ensures Scan("\"" + s) == Scan(s)
  {
    assert ("\"" + s)[1..] == s;
  }

  /** A `[` that does not open `[letters.letters]` is skipped. */
  lemma ScanStrayBracket(s: string)
    requires MatchDirective("[" + s).None?
    ensures Scan("[" + s) == Scan(s)
  {
    assert ("[" + s)[1..] == s;
  }

  /** A character that starts none of the three shapes is dropped. */
  lemma ScanSkipsOther(c: char, s: string)
    requires !IsAsciiLetter(c) && c != '"' && c != '['
    ensures Scan([c] + s) == Scan(s)
  {
    assert ([c] + s)[1..] == s;
  }
}
