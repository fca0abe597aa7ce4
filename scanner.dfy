/**
 * The longest-match scanner of src/scanner.rs. A `Scanner` is a cursor
 * (`off`, `lineno`) over a fixed input. Each call of `Token` tries the windows
 * `istring[off..i]` for `i` from `len - 1` down to `off + 1`, applies the
 * ordered pattern table to each window, stops at the first window where some
 * pattern matches, keeps the longest match (earlier table entries win ties),
 * advances `off` by its length, and skips whitespace.
 */
module Lexer {
  import opened Wrappers
  import opened Patterns

  /** A token of the source, the pair `(kind, text)` of its `Token = (String, String)`. */
  datatype Lexeme = Lexeme(kind: string, text: string)

  /** The regular expression of a table entry. */
  datatype Pattern = Literal(lit: string) | Number | Identifier | Blank

  /** The post-processing function of a table entry. */
  datatype PostProcess = IdyFn | FindKeywordsFn

  datatype Entry = Entry(name: string, pattern: Pattern, post: PostProcess)

  /** The ordered token table (17 entries). */
  const TOKENS: seq<Entry> := [
    Entry("MUL", Literal("*"), IdyFn),
    Entry("PLUS", Literal("+"), IdyFn),
    Entry("MINUS", Literal("-"), IdyFn),
    Entry("DIV", Literal("/"), IdyFn),
    Entry("EQ", Literal("=="), IdyFn),
    Entry("LT", Literal("<"), IdyFn),
    Entry("LBRACE", Literal("{"), IdyFn),
    Entry("RBRACE", Literal("}"), IdyFn),
    Entry("LPAR", Literal("("), IdyFn),
    Entry("RPAR", Literal(")"), IdyFn),
    Entry("SEMI", Literal(";"), IdyFn),
    Entry("ASSIGN", Literal("="), IdyFn),
    Entry("AMP", Literal("&"), IdyFn),
    Entry("COMMA", Literal(","), IdyFn),
    Entry("NUM", Number, IdyFn),
    Entry("ID", Identifier, FindKeywordsFn),
    Entry("IGNORE", Blank, IdyFn)
  ]

  /** The keyword table: (kind, spelling). */
  const KEYWORDS: seq<(string, string)> := [
    ("IF", "if"),
    ("ELSE", "else"),
    ("FOR", "for"),
    ("INT", "int"),
    ("FLOAT", "float"),
    ("VOID", "void")
  ]

  /** Only the ID entry is post-processed; only the IGNORE entry matches blanks. */
  predicate WellFormedEntry(e: Entry) {
    && e.post == (if e.name == "ID" then FindKeywordsFn else IdyFn)
    && (e.name == "IGNORE" <==> e.pattern == Blank)
    && e.name !in {"IF", "ELSE", "FOR", "INT", "FLOAT", "VOID"}
  }

  lemma TableWellFormed()
    ensures |TOKENS| == 17
    ensures forall k :: 0 <= k < |TOKENS| ==> WellFormedEntry(TOKENS[k])
  {
  }

  /** Group 0 of the entry's regular expression applied to the window, or "". */
  function Apply(p: Pattern, w: string): string {
    match p
    case Literal(lit) => MatchLiteral(lit, w)
    case Number => MatchNumber(w)
    case Identifier => MatchIdentifier(w)
    case Blank => MatchBlank(w)
  }

  /**
   * A match is a prefix or a suffix of the window; only NUM can match less than
   * the whole window, and a blank match is the whole one-character window.
   */
  lemma ApplyShape(p: Pattern, w: string)
    ensures var m := Apply(p, w);
      && |m| <= |w|
      && (m == "" || m == w[..|m|] || m == w[|w| - |m|..])
      && (p != Number ==> m == "" || m == w)
      && (p == Blank && m != "" ==> |w| == 1 && IsBlank(w[0]))
  {
    if p == Number {
      MatchNumberShape(w);
    }
  }

  // ---------------------------------------------------------------------------
  // Post-processing

  function Idy(t: Lexeme): Lexeme { t }

  /** First keyword entry whose spelling is `text`. */
  function LookupKeyword(table: seq<(string, string)>, text: string): (r: Option<(string, string)>)
    ensures r.Some? ==> r.value in table && r.value.1 == text
    ensures r.None? ==> forall j :: 0 <= j < |table| ==> table[j].1 != text
  {
    if table == [] then None
    else if table[0].1 == text then Some(table[0])
    else LookupKeyword(table[1..], text)
  }

  /** An identifier spelled like a keyword takes the keyword's kind; any other token is unchanged. */
  function FindKeywords(t: Lexeme): Lexeme {
    match LookupKeyword(KEYWORDS, t.text)
    case Some(e) => Lexeme(e.0, e.1)
    case None => t
  }

  /**
   * The text is kept; the kind becomes that of the keyword spelled by the
   * text, if any, and is otherwise left alone.
   */
  lemma FindKeywordsSpec(t: Lexeme)
    ensures var r := FindKeywords(t);
      && r.text == t.text
      && (r == t || r.kind in {"IF", "ELSE", "FOR", "INT", "FLOAT", "VOID"})
      && (forall j :: 0 <= j < |KEYWORDS| && KEYWORDS[j].1 == t.text ==> r.kind == KEYWORDS[j].0)
      && ((forall j :: 0 <= j < |KEYWORDS| ==> KEYWORDS[j].1 != t.text) ==> r == t)
  {
    match LookupKeyword(KEYWORDS, t.text)
    case None =>
    case Some(e) =>
      assert e in KEYWORDS && e.1 == t.text;
      forall j | 0 <= j < |KEYWORDS| && KEYWORDS[j].1 == t.text
        ensures e.0 == KEYWORDS[j].0
      {
        KeywordsDistinct(j, e);
      }
  }

  /** No two keywords share a spelling. */
  lemma KeywordsDistinct(j: nat, e: (string, string))
    requires j < |KEYWORDS| && e in KEYWORDS && KEYWORDS[j].1 == e.1
    ensures KEYWORDS[j] == e
  {
  }

  function Post(p: PostProcess, t: Lexeme): Lexeme {
    match p
    case IdyFn => Idy(t)
    case FindKeywordsFn => FindKeywords(t)
  }

  /** `longest.2((longest.0, longest.1))`: a match run through its entry's post-processing. */
  function Processed(m: Match): Lexeme {
    Post(m.post, Lexeme(m.name, m.text))
  }

  /** Post-processing keeps the text, and only an IGNORE match yields an IGNORE token. */
  lemma ProcessedKeepsText(m: Match)
    requires m.post == (if m.name == "ID" then FindKeywordsFn else IdyFn)
    ensures Processed(m).text == m.text
    ensures Processed(m).kind == "IGNORE" <==> m.name == "IGNORE"
    ensures m.name != "ID" ==> Processed(m) == Lexeme(m.name, m.text)
  {
    FindKeywordsSpec(Lexeme(m.name, m.text));
  }

  /** The six keywords are recognised, and nothing else is. */
  lemma KeywordReclassification(text: string)
    ensures text == "if" ==> FindKeywords(Lexeme("ID", text)) == Lexeme("IF", "if")
    ensures text == "else" ==> FindKeywords(Lexeme("ID", text)) == Lexeme("ELSE", "else")
    ensures text == "for" ==> FindKeywords(Lexeme("ID", text)) == Lexeme("FOR", "for")
    ensures text == "int" ==> FindKeywords(Lexeme("ID", text)) == Lexeme("INT", "int")
    ensures text == "float" ==> FindKeywords(Lexeme("ID", text)) == Lexeme("FLOAT", "float")
    ensures text == "void" ==> FindKeywords(Lexeme("ID", text)) == Lexeme("VOID", "void")
    ensures text !in {"if", "else", "for", "int", "float", "void"} ==>
              FindKeywords(Lexeme("ID", text)) == Lexeme("ID", text)
  {
    var t := Lexeme("ID", text);
    FindKeywordsSpec(t);
    if text !in {"if", "else", "for", "int", "float", "void"} {
      assert forall j :: 0 <= j < |KEYWORDS| ==> KEYWORDS[j].1 != text;
    } else {
      assert KEYWORDS[0].1 == "if" && KEYWORDS[1].1 == "else" && KEYWORDS[2].1 == "for";
      assert KEYWORDS[3].1 == "int" && KEYWORDS[4].1 == "float" && KEYWORDS[5].1 == "void";
    }
  }

  // ---------------------------------------------------------------------------
  // Matching one window

  /** A match `(t.0, m, t.2)` kept by the scanner for a window. */
  datatype Match = Match(name: string, text: string, post: PostProcess)

  predicate WellFormedMatch(m: Match, w: string) {
    && 0 < |m.text| <= |w|
    && (m.text == w[..|m.text|] || m.text == w[|w| - |m.text|..])
    && m.post == (if m.name == "ID" then FindKeywordsFn else IdyFn)
    && m.name !in {"IF", "ELSE", "FOR", "INT", "FLOAT", "VOID"}
    && (m.name == "IGNORE" ==> m.text == w && |w| == 1 && IsBlank(w[0]))
  }

  /** The non-empty matches of the first `k` entries of `table` against `w`, in table order. */
  function Collect(table: seq<Entry>, w: string, k: nat): (ms: seq<Match>)
    requires k <= |table|
    ensures |ms| <= k
  {
    if k == 0 then []
    else
      var e := table[k - 1];
      var m := Apply(e.pattern, w);
      Collect(table, w, k - 1) + (if m != "" then [Match(e.name, m, e.post)] else [])
  }

  function Matches(w: string): seq<Match> {
    Collect(TOKENS, w, |TOKENS|)
  }

  /** A window yields no match exactly when every pattern of the table fails on it. */
  lemma {:induction false} CollectEmpty(table: seq<Entry>, w: string, k: nat)
    requires k <= |table|
    ensures Collect(table, w, k) == [] <==> forall j :: 0 <= j < k ==> Apply(table[j].pattern, w) == ""
  {
    if k > 0 {
      CollectEmpty(table, w, k - 1);
      var m := Apply(table[k - 1].pattern, w);
      var rest := Collect(table, w, k - 1);
      if m != "" {
        assert Collect(table, w, k) == rest + [Match(table[k - 1].name, m, table[k - 1].post)];
        assert Collect(table, w, k) != [];
      } else {
        assert Collect(table, w, k) == rest + [];
      }
    }
  }

  /** Every match collected from a window with well-formed entries is a well-formed match of it. */
  lemma {:induction false} CollectWellFormed(table: seq<Entry>, w: string, k: nat)
    requires k <= |table|
    requires forall j :: 0 <= j < |table| ==> WellFormedEntry(table[j])
    ensures forall q :: 0 <= q < |Collect(table, w, k)| ==> WellFormedMatch(Collect(table, w, k)[q], w)
  {
    if k > 0 {
      CollectWellFormed(table, w, k - 1);
      assert WellFormedEntry(table[k - 1]);
      ApplyShape(table[k - 1].pattern, w);
    }
  }

  /** The first 14 entries spell one or two punctuation characters. */
  predicate IsPunctuation(e: Entry) {
    && e.pattern.Literal?
    && 0 < |e.pattern.lit| <= 2
    && !IsDigit(e.pattern.lit[0]) && !IsAlpha(e.pattern.lit[0]) && !IsBlank(e.pattern.lit[0])
  }

  lemma PunctuationEntries()
    ensures forall k :: 0 <= k < 14 ==> IsPunctuation(TOKENS[k])
    ensures TOKENS[14] == Entry("NUM", Number, IdyFn)
    ensures TOKENS[15] == Entry("ID", Identifier, FindKeywordsFn)
    ensures TOKENS[16] == Entry("IGNORE", Blank, IdyFn)
  {
  }

  /** A window that is not a lone punctuation character or blank. */
  predicate IsWordWindow(w: string) {
    |w| > 2 || (|w| > 0 && (IsDigit(w[0]) || IsAlpha(w[0])))
  }

  lemma {:induction false} NoPunctuationMatch(w: string, k: nat)
    requires k <= 14 && IsWordWindow(w)
    ensures Collect(TOKENS, w, k) == []
  {
    if k > 0 {
      NoPunctuationMatch(w, k - 1);
      PunctuationEntries();
      assert IsPunctuation(TOKENS[k - 1]);
      var lit := TOKENS[k - 1].pattern.lit;
      if |w| == |lit| {
        assert w[0] != lit[0];
      }
    }
  }

  /** On a window longer than any punctuation, or starting with a digit or letter, only NUM and ID can match. */
  lemma WordWindowMatches(w: string)
    requires IsWordWindow(w)
    ensures Matches(w) ==
      (if MatchNumber(w) != "" then [Match("NUM", MatchNumber(w), IdyFn)] else []) +
      (if IsIdentifier(w) then [Match("ID", w, FindKeywordsFn)] else [])
  {
    NoPunctuationMatch(w, 14);
    PunctuationEntries();
    var num := if MatchNumber(w) != "" then [Match("NUM", MatchNumber(w), IdyFn)] else [];
    var id := if IsIdentifier(w) then [Match("ID", w, FindKeywordsFn)] else [];
    assert Apply(TOKENS[14].pattern, w) == MatchNumber(w);
    assert Collect(TOKENS, w, 15) == num;
    assert Apply(TOKENS[15].pattern, w) == MatchIdentifier(w);
    assert Collect(TOKENS, w, 16) == num + id;
    assert Apply(TOKENS[16].pattern, w) == "";
  }

  /**
   * The window search: the largest `i` with `off < i <= hi` whose window
   * `s[off..i]` has a match, trying `hi` first and shrinking.
   */
  function SearchWindow(s: string, off: nat, hi: nat): (r: Option<nat>)
    requires off <= hi <= |s|
    ensures r.Some? ==> off < r.value <= hi && Matches(s[off..r.value]) != []
    ensures forall j :: (if r.Some? then r.value else off) < j <= hi ==> Matches(s[off..j]) == []
    decreases hi
  {
    if hi <= off then None
    else if Matches(s[off..hi]) != [] then Some(hi)
    else SearchWindow(s, off, hi - 1)
  }

  /** One step of the window search, from the right end `hi` of the window. */
  lemma SearchWindowStep(s: string, off: nat, hi: nat)
    requires off < hi <= |s|
    ensures Matches(s[off..hi]) != [] ==> SearchWindow(s, off, hi) == Some(hi)
    ensures Matches(s[off..hi]) == [] ==> SearchWindow(s, off, hi) == SearchWindow(s, off, hi - 1)
  {
  }

  // ---------------------------------------------------------------------------
  // The stable sort by decreasing length, `sort_by(|a, b| b.1.len().cmp(&a.1.len()))`

  /** Inserts `m`, which precedes every element of `sorted` in the original order. */
  function InsertByLength(m: Match, sorted: seq<Match>): (r: seq<Match>)
    ensures |r| == |sorted| + 1
  {
    if sorted == [] || |sorted[0].text| <= |m.text| then [m] + sorted
    else [sorted[0]] + InsertByLength(m, sorted[1..])
  }

  function SortByLength(ms: seq<Match>): (r: seq<Match>)
    ensures |r| == |ms|
  {
    if ms == [] then [] else InsertByLength(ms[0], SortByLength(ms[1..]))
  }

  lemma {:induction false} InsertByLengthPermutes(m: Match, sorted: seq<Match>)
    ensures multiset(InsertByLength(m, sorted)) == multiset(sorted) + multiset{m}
  {
    if sorted != [] && |sorted[0].text| > |m.text| {
      assert sorted == [sorted[0]] + sorted[1..];
      InsertByLengthPermutes(m, sorted[1..]);
    }
  }

  /** The sort is a permutation of the matches. */
  lemma {:induction false} SortByLengthPermutes(ms: seq<Match>)
    ensures multiset(SortByLength(ms)) == multiset(ms)
  {
    if ms != [] {
      assert ms == [ms[0]] + ms[1..];
      SortByLengthPermutes(ms[1..]);
      InsertByLengthPermutes(ms[0], SortByLength(ms[1..]));
    }
  }

  /** Matches ordered by decreasing length. */
  predicate OrderedByLength(ms: seq<Match>) {
    forall p, q :: 0 <= p < q < |ms| ==> |ms[p].text| >= |ms[q].text|
  }

  lemma {:induction false} InsertByLengthOrdered(m: Match, sorted: seq<Match>)
    requires OrderedByLength(sorted)
    ensures OrderedByLength(InsertByLength(m, sorted))
  {
    if sorted != [] && |sorted[0].text| > |m.text| {
      InsertByLengthOrdered(m, sorted[1..]);
      var r := InsertByLength(m, sorted);
      var t := InsertByLength(m, sorted[1..]);
      assert r == [sorted[0]] + t;
      assert r[0] == sorted[0];
      InsertByLengthPermutes(m, sorted[1..]);
      forall p, q | 0 <= p < q < |r| ensures |r[p].text| >= |r[q].text| {
        var x := r[q];
        assert x == t[q - 1];
        if p == 0 {
          assert x in multiset(t);
          if x != m {
            assert x in multiset(sorted[1..]);
            var i :| 0 <= i < |sorted[1..]| && sorted[1..][i] == x;
            assert sorted[i + 1] == x;
          }
        } else {
          assert r[p] == t[p - 1];
          assert |t[p - 1].text| >= |t[q - 1].text|;
        }
      }
    }
  }

  /** The sort is a permutation ordered by decreasing length. */
  lemma {:induction false} SortByLengthOrdered(ms: seq<Match>)
    ensures OrderedByLength(SortByLength(ms))
  {
    if ms != [] {
      SortByLengthOrdered(ms[1..]);
      InsertByLengthOrdered(ms[0], SortByLength(ms[1..]));
    }
  }

  /**
   * The head of the sorted matches is the first match of greatest length:
   * the longest match wins, and among equally long ones the earlier table entry.
   */
  lemma {:induction false} SortedHeadIsFirstLongest(ms: seq<Match>) returns (p: nat)
    requires ms != []
    ensures p < |ms| && |SortByLength(ms)| > 0 && SortByLength(ms)[0] == ms[p]
    ensures forall q :: 0 <= q < |ms| ==> |ms[q].text| <= |ms[p].text|
    ensures forall q :: 0 <= q < p ==> |ms[q].text| < |ms[p].text|
  {
    var rest := SortByLength(ms[1..]);
    if ms[1..] == [] {
      assert ms == [ms[0]];
      p := 0;
    } else {
      var p' := SortedHeadIsFirstLongest(ms[1..]);
      if |rest[0].text| <= |ms[0].text| {
        p := 0;
      } else {
        p := p' + 1;
      }
    }
  }

  // ---------------------------------------------------------------------------
  // One iteration of the scanning loop

  datatype StepResult =
    | NoMatch
    | Found(tok: Lexeme, window: nat, next: nat)

  /**
   * One pass of the outer loop of `token` from offset `off`: find the window,
   * keep the longest match, post-process it and advance by its length.
   */
  function Step(s: string, off: nat): (r: StepResult)
    requires off + 1 < |s|
    ensures r.Found? ==> off < r.window <= |s| - 1 && off < r.next <= r.window
    ensures r.Found? ==> r.next == off + |r.tok.text|
    ensures r.Found? && r.tok.kind == "IGNORE" ==>
              r.tok.text == [s[off]] && IsBlank(s[off]) && r.next == off + 1
  {
    match SearchWindow(s, off, |s| - 1)
    case None => NoMatch
    case Some(i) =>
      var ms := Matches(s[off..i]);
      var sorted := SortByLength(ms);
      SortByLengthPermutes(ms);
      assert sorted[0] in multiset(ms);
      TableWellFormed();
      CollectWellFormed(TOKENS, s[off..i], |TOKENS|);
      assert WellFormedMatch(sorted[0], s[off..i]);
      ProcessedKeepsText(sorted[0]);
      Pick(ms, i, off)
  }

  /** The lexeme of the longest of a window's matches, and the cursor after it. */
  function Pick(ms: seq<Match>, window: nat, off: nat): StepResult
    requires ms != []
  {
    var tok := Processed(SortByLength(ms)[0]);
    Found(tok, window, off + |tok.text|)
  }

  /**
   * What a successful step returns: the window is the longest one with a match
   * and never reaches the final byte; the token comes from the first longest
   * match of that window; only an ID is re-classified, and its text is kept.
   */
  lemma StepIsLongestMatch(s: string, off: nat) returns (p: nat)
    requires off + 1 < |s| && Step(s, off).Found?
    ensures var r := Step(s, off);
      var ms := Matches(s[off..r.window]);
      && off < r.window <= |s| - 1
      && (forall j :: r.window < j <= |s| - 1 ==> Matches(s[off..j]) == [])
      && p < |ms|
      && (forall q :: 0 <= q < |ms| ==> |ms[q].text| <= |ms[p].text|)
      && (forall q :: 0 <= q < p ==> |ms[q].text| < |ms[p].text|)
      && r.tok.text == ms[p].text
      && r.next == off + |ms[p].text|
      && (ms[p].name != "ID" ==> r.tok == Lexeme(ms[p].name, ms[p].text))
      && (ms[p].name == "ID" ==> r.tok == FindKeywords(Lexeme("ID", ms[p].text)))
  {
    var r := Step(s, off);
    var i := SearchWindow(s, off, |s| - 1).value;
    var ms := Matches(s[off..i]);
    p := SortedHeadIsFirstLongest(ms);
    TableWellFormed();
    CollectWellFormed(TOKENS, s[off..i], |TOKENS|);
    assert WellFormedMatch(ms[p], s[off..i]);
  }

  /**
   * A step fails exactly when no window from `off` that stops before the final
   * byte has a match, that is, when every pattern fails on every such window.
   */
  lemma StepFailsExactly(s: string, off: nat)
    requires off + 1 < |s|
    ensures Step(s, off).NoMatch? <==> forall j :: off < j <= |s| - 1 ==> Matches(s[off..j]) == []
    ensures Step(s, off).NoMatch? ==>
              forall j, e :: off < j <= |s| - 1 && 0 <= e < |TOKENS| ==> Apply(TOKENS[e].pattern, s[off..j]) == ""
  {
    if Step(s, off).NoMatch? {
      forall j | off < j <= |s| - 1
        ensures forall e :: 0 <= e < |TOKENS| ==> Apply(TOKENS[e].pattern, s[off..j]) == ""
      {
        CollectEmpty(TOKENS, s[off..j], |TOKENS|);
      }
    }
  }

  // ---------------------------------------------------------------------------
  // The whole `token` call

  /** What `token` returns: `Some`, `None`, the exit on no match, or the `len() - 1` underflow. */
  datatype Outcome = Emitted(tok: Lexeme) | Exhausted | LexError(at: nat) | Underflow

  datatype Scan = Scan(outcome: Outcome, off: nat, lineno: int)

  predicate AllBlank(s: string) { forall i :: 0 <= i < |s| ==> IsBlank(s[i]) }

  /** Newline characters in `s`. */
  function Newlines(s: string): nat {
    if s == [] then 0 else (if s[0] == '\n' then 1 else 0) + Newlines(s[1..])
  }

  /**
   * The result and the new cursor of one `token` call: repeat `Step`, skipping
   * IGNORE lexemes (counting a lexeme "\n" as a new line), until a token is
   * found, the cursor reaches `len - 1`, or no window matches.
   */
  function NextToken(s: string, off: nat, lineno: int): (r: Scan)
    requires |s| == 0 || off <= |s| - 1
    ensures r.outcome.Emitted? ==> r.outcome.tok.kind != "IGNORE" && off < r.off
    ensures r.outcome.Underflow? <==> |s| == 0
    ensures |s| > 0 ==> off <= r.off <= |s| - 1
    ensures r.outcome.Exhausted? ==> r.off == |s| - 1
    ensures off >= |s| - 1 ==> r == (if |s| == 0 then Scan(Underflow, off, lineno) else Scan(Exhausted, off, lineno))
    ensures lineno <= r.lineno
    decreases |s| - off
  {
    if |s| == 0 then Scan(Underflow, off, lineno)
    else if off >= |s| - 1 then Scan(Exhausted, off, lineno)
    else
      match Step(s, off)
      case NoMatch => Scan(LexError(off), off, lineno)
      case Found(tok, _, next) =>
        if tok.kind != "IGNORE" then Scan(Emitted(tok), next, lineno)
        else NextToken(s, next, if tok.text == "\n" then lineno + 1 else lineno)
  }

  /** One unfolding of NextToken at a cursor before the final byte. */
  lemma NextTokenUnfold(s: string, off: nat, lineno: int)
    requires off + 1 < |s|
    ensures Step(s, off).NoMatch? ==> NextToken(s, off, lineno) == Scan(LexError(off), off, lineno)
    ensures Step(s, off).Found? && Step(s, off).tok.kind != "IGNORE" ==>
              NextToken(s, off, lineno) == Scan(Emitted(Step(s, off).tok), Step(s, off).next, lineno)
    ensures Step(s, off).Found? && Step(s, off).tok.kind == "IGNORE" ==>
              NextToken(s, off, lineno) ==
              NextToken(s, Step(s, off).next, if Step(s, off).tok.text == "\n" then lineno + 1 else lineno)
  {
  }

  /**
   * A `token` call is a run of blank characters, each consumed as its own
   * IGNORE lexeme, followed by one step from offset `k`. The line number grows
   * by exactly the newlines in that run.
   */
  lemma {:induction false} NextTokenSkipsBlanks(s: string, off: nat, lineno: int) returns (k: nat)
    requires 0 < |s| && off <= |s| - 1
    ensures var r := NextToken(s, off, lineno);
      && off <= k <= r.off
      && AllBlank(s[off..k])
      && r.lineno == lineno + Newlines(s[off..k])
      && (r.outcome.Exhausted? ==> k == r.off == |s| - 1)
      && (r.outcome.LexError? ==> k == r.off == r.outcome.at && k + 1 < |s| && Step(s, k).NoMatch?)
      && (r.outcome.Emitted? ==>
            k + 1 < |s| && Step(s, k).Found? &&
            Step(s, k).tok == r.outcome.tok && Step(s, k).next == r.off)
    decreases |s| - off
  {
    var r := NextToken(s, off, lineno);
    assert s[off..off] == [];
    if off >= |s| - 1 {
      assert r == Scan(Exhausted, off, lineno);
      k := off;
    } else {
      var st := Step(s, off);
      NextTokenUnfold(s, off, lineno);
      if st.NoMatch? || st.tok.kind != "IGNORE" {
        k := off;
      } else {
        var l' := if st.tok.text == "\n" then lineno + 1 else lineno;
        k := NextTokenSkipsBlanks(s, off + 1, l');
        NewlinesFirst(s, off, k);
      }
    }
  }

  /** Helper of NextTokenSkipsBlanks: a run of blanks and its newlines, read from the front. */
  lemma NewlinesFirst(s: string, a: nat, b: nat)
    requires a < b <= |s|
    ensures Newlines(s[a..b]) == (if s[a] == '\n' then 1 else 0) + Newlines(s[a + 1..b])
    ensures AllBlank(s[a..b]) <==> IsBlank(s[a]) && AllBlank(s[a + 1..b])
  {
    assert s[a..b][1..] == s[a + 1..b];
  }

  /** The final byte of the input never takes part in scanning. */
  lemma {:induction false} FinalByteIgnored(s: string, c: char, d: char, off: nat, lineno: int)
    requires off <= |s|
    ensures NextToken(s + [c], off, lineno) == NextToken(s + [d], off, lineno)
    decreases |s| - off
  {
    var s1, s2 := s + [c], s + [d];
    if off < |s| {
      assert s1[..|s|] == s == s2[..|s|];
      StepAgrees(s1, s2, off);
      var st := Step(s1, off);
      if st.Found? && st.tok.kind == "IGNORE" {
        FinalByteIgnored(s, c, d, st.next, if st.tok.text == "\n" then lineno + 1 else lineno);
      }
    }
  }

  /** Helper of FinalByteIgnored: inputs that differ only in their final byte step alike. */
  lemma StepAgrees(s1: string, s2: string, off: nat)
    requires off + 1 < |s1| == |s2| && s1[..|s1| - 1] == s2[..|s2| - 1]
    ensures Step(s1, off) == Step(s2, off)
  {
    assert s1[..|s1| - 1] == s2[..|s1| - 1];
    SearchWindowAgrees(s1, s2, off, |s1| - 1);
    match SearchWindow(s1, off, |s1| - 1)
    case None =>
    case Some(i) =>
      SlicesAgree(s1, s2, |s1| - 1, off, i);
      var w := s1[off..i];
      assert Step(s1, off) == Pick(Matches(w), i, off);
      assert Step(s2, off) == Pick(Matches(w), i, off);
  }

  /** Helper of StepAgrees: equal prefixes give equal window searches. */
  lemma {:induction false} SearchWindowAgrees(s1: string, s2: string, off: nat, hi: nat)
    requires off <= hi <= |s1| && hi <= |s2| && s1[..hi] == s2[..hi]
    ensures SearchWindow(s1, off, hi) == SearchWindow(s2, off, hi)
    decreases hi
  {
    if hi > off {
      SlicesAgree(s1, s2, hi, off, hi);
      SlicesAgree(s1, s2, hi, 0, hi - 1);
      SearchWindowAgrees(s1, s2, off, hi - 1);
    }
  }

  /** Helper of SearchWindowAgrees, about sequences only: slices of equal prefixes agree. */
  lemma SlicesAgree(s1: string, s2: string, hi: nat, a: nat, b: nat)
    requires a <= b <= hi <= |s1| && hi <= |s2| && s1[..hi] == s2[..hi]
    ensures s1[a..b] == s2[a..b]
  {
    forall k | a <= k < b
      ensures s1[k] == s2[k]
    {
      assert s1[k] == s1[..hi][k] && s2[k] == s2[..hi][k];
    }
  }

  /**
   * The NUM fraction alternative matches at the end of a window, yet the cursor
   * advances only by its length: on "x.5 " the scanner returns ".5" from
   * offset 0, then "5" again from offset 2, and never returns the 'x'.
   */
  lemma NumberSuffixQuirk()
    ensures NextToken("x.5 ", 0, 1) == Scan(Emitted(Lexeme("NUM", ".5")), 2, 1)
    ensures NextToken("x.5 ", 2, 1) == Scan(Emitted(Lexeme("NUM", "5")), 3, 1)
    ensures NextToken("x.5 ", 3, 1) == Scan(Exhausted, 3, 1)
  {
    QuirkFirstStep();
    QuirkSecondStep();
  }

  /** Helper of NumberSuffixQuirk: from offset 0 the whole window "x.5" yields only the fraction. */
  lemma QuirkFirstStep()
    ensures Step("x.5 ", 0) == Found(Lexeme("NUM", ".5"), 3, 2)
  {
    var s := "x.5 ";
    assert s[0..3] == "x.5";
    assert MatchNumber("x.5") == ".5" by {
      assert LeadingDigits("x.5") == 0;
      assert "x.5"[..2] == "x." && "x."[..1] == "x";
      assert TrailingDigits("x.5") == 1;
      assert "x.5"[2..] == "5";
    }
    assert !IsIdentifier("x.5") by { assert !IsAlpha("x.5"[1]) && !IsDigit("x.5"[1]); }
    WordWindowMatches("x.5");
    var ms := [Match("NUM", ".5", IdyFn)];
    assert Matches(s[0..3]) == ms;
    assert SearchWindow(s, 0, 3) == Some(3);
    assert SortByLength(ms) == ms;
  }

  /** Helper of NumberSuffixQuirk: from offset 2 the window "5" yields the digit again. */
  lemma QuirkSecondStep()
    ensures Step("x.5 ", 2) == Found(Lexeme("NUM", "5"), 3, 3)
  {
    var s := "x.5 ";
    assert s[2..3] == "5";
    assert MatchNumber("5") == "5" by {
      assert LeadingDigits("5") == 1 by { assert "5"[1..] == ""; }
    }
    WordWindowMatches("5");
    var ms := [Match("NUM", "5", IdyFn)];
    assert Matches(s[2..3]) == ms;
    assert SearchWindow(s, 2, 3) == Some(3);
    assert SortByLength(ms) == ms;
  }

  // ---------------------------------------------------------------------------
  // The scanner object

  class Scanner {
    var lineno: int
    var off: nat
    const istring: string

    ghost predicate Valid()
      reads this
    {
      |istring| == 0 || off <= |istring| - 1
    }

    constructor (istring: string)
      ensures this.istring == istring && lineno == 1 && off == 0
      ensures Valid()
    {
      this.istring := istring;
      lineno := 1;
      off := 0;
    }

    /** The `for t in TOKENS` loop of `token`: every entry's non-empty match on the window, in order. */
    static method MatchAll(table: seq<Entry>, w: string) returns (matches: seq<Match>)
      ensures matches == Collect(table, w, |table|)
    {
      matches := [];
      for k := 0 to |table|
        invariant matches == Collect(table, w, k)
      {
        var m := Apply(table[k].pattern, w);
        if |m| > 0 {
          matches := matches + [Match(table[k].name, m, table[k].post)];
        }
      }
    }

    /** The matches of every entry of the token table on the window `w`. */
    static method MatchWindow(w: string) returns (matches: seq<Match>)
      ensures matches == Matches(w)
    {
      matches := MatchAll(TOKENS, w);
    }

    /**
     * The inner `while` of `token`: windows from `len - 1` down to `off + 1`,
     * stopping at the first with a match; `matches` is empty when none has one.
     */
    static method FindWindow(s: string, off: nat) returns (i: nat, matches: seq<Match>)
      requires off + 1 < |s|
      ensures matches == [] <==> SearchWindow(s, off, |s| - 1).None?
      ensures matches != [] ==> SearchWindow(s, off, |s| - 1) == Some(i) && matches == Matches(s[off..i])
    {
      matches := [];
      i := |s| - 1;
      while i > off
        invariant off <= i <= |s| - 1
        invariant SearchWindow(s, off, |s| - 1) == SearchWindow(s, off, i)
      {
        matches := MatchWindow(s[off..i]);
        SearchWindowStep(s, off, i);
        if |matches| > 0 {
          return;
        }
        i := i - 1;
      }
      matches := [];
    }

    /**
     * One pass of the outer `loop` of `token` from offset `off`, up to the
     * update of `off`: the window search, the exit when nothing matched, the
     * sort, and the post-processing of the longest match.
     */
    static method ScanOnce(s: string, off: nat) returns (r: StepResult)
      requires off + 1 < |s|
      ensures r == Step(s, off)
    {
      var i, matches := FindWindow(s, off);
      if |matches| == 0 {
        return NoMatch;
      }
      var longest := SortByLength(matches)[0];
      var lexeme := Processed(longest);
      return Found(lexeme, i, off + |lexeme.text|);
    }

    /**
     * The body of the outer `loop` of `token` once the end test has passed:
     * one step, then either the outcome of the call (`Some`) or a skipped
     * IGNORE lexeme after which the loop goes on (`None`).
     */
    method Advance() returns (r: Option<Outcome>)
      requires Valid() && off + 1 < |istring|
      modifies this
      ensures Valid() && (r.None? ==> old(off) < off)
      ensures r.None? ==>
                var st := Step(istring, old(off));
                && st.Found? && st.tok.kind == "IGNORE" && off == st.next
                && lineno == old(lineno) + (if st.tok.text == "\n" then 1 else 0)
      ensures NextToken(istring, old(off), old(lineno)) ==
                if r.Some? then Scan(r.value, off, lineno) else NextToken(istring, off, lineno)
    {
      var step := ScanOnce(istring, off);
      NextTokenUnfold(istring, off, lineno);
      if step.NoMatch? {
        return Some(LexError(off));
      }
      var lexeme := step.tok;
      off := off + |lexeme.text|;
      if lexeme.kind != "IGNORE" {
        return Some(Emitted(lexeme));
      }
      if lexeme.text == "\n" {
        lineno := lineno + 1;
      }
      return None;
    }

    /**
     * `token`: the outcome and the new cursor are those of NextToken from the
     * old cursor. Input is ASCII, so byte offsets and character offsets agree.
     */
    method Token() returns (r: Outcome)
      requires Valid() && IsAscii(istring)
      modifies this
      ensures Valid()
      ensures Scan(r, off, lineno) == NextToken(istring, old(off), old(lineno))
    {
      if |istring| == 0 {
        return Underflow;
      }
      while true
        invariant Valid()
        invariant NextToken(istring, off, lineno) == NextToken(istring, old(off), old(lineno))
        decreases |istring| - off
      {
        if off >= |istring| - 1 {
          return Exhausted;
        }
        var outcome := Advance();
        if outcome.Some? {
          return outcome.value;
        }
      }
    }
  }
}
