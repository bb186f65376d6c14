/** The style checker: violations, the rule list, the per-file check and
    the driver that aggregates all files and decides the exit status. */
module StyleCheck {
  import opened Wrappers
  import opened Text
  import opened Patterns

  const LINE_LENGTH_LIMIT: nat := 100
  const LINE_LENGTH_RULE: string := "Line > 100 chars"

  /** One reported infraction. */
  datatype Violation = Violation(path: string, lineNo: nat, rule: string, line: string)
  {
    /** `path:line_no: [rule] line`: the path and a `:` come first, the
        text comes last, and in between stand the decimal digits of the
        line number and the bracketed rule. */
    function ToString(): (s: string)
      ensures |s| == |path| + |NatToString(lineNo)| + |rule| + |line| + 6
      ensures s[..|path|] == path && s[|path|] == ':'
      ensures s[|s| - |line|..] == line
    {
      path + ":" + NatToString(lineNo) + ": [" + rule + "] " + line
    }
  }

  /** Building a violation keeps path, line number and rule, and drops the
      trailing line feeds of the text (`line.rstrip("\n")`): what is kept is
      a prefix of the text, and all of it when the text has no line feed. */
  function NewViolation(path: string, lineNo: nat, rule: string, line: string): (v: Violation)
    ensures v.path == path && v.lineNo == lineNo && v.rule == rule
    ensures |v.line| <= |line| && v.line == line[..|v.line|]
    ensures '\n' !in line ==> v.line == line
  {
    RStripNewlinesShape(line);
    Violation(path, lineNo, rule, RStripNewlines(line))
  }

  /** Only line feeds are cut from the stored text, and none is left at
      its end. */
  lemma {:induction false} NewViolationStripsLine(path: string, lineNo: nat, rule: string, line: string)
    ensures var v := NewViolation(path, lineNo, rule, line);
            && (forall i :: |v.line| <= i < |line| ==> line[i] == '\n')
            && (v.line == [] || v.line[|v.line| - 1] != '\n')
  {
    RStripNewlinesShape(line);
  }

  /** The printed form can be read back: it starts with the path and a ':',
      then the digits of the line number, then the bracketed rule and the
      text. */
  lemma {:induction false} ToStringReadsBack(v: Violation)
    ensures var s := v.ToString();
            var digitsStart := |v.path| + 1;
            var digitsEnd := DigitRunEnd(s, digitsStart);
            && s[..|v.path|] == v.path
            && s[|v.path|] == ':'
            && digitsEnd == digitsStart + |NatToString(v.lineNo)|
            && DigitsValue(s[digitsStart..digitsEnd]) == v.lineNo
            && s[digitsEnd..] == ": [" + v.rule + "] " + v.line
  {
    var s := v.ToString();
    var digits := NatToString(v.lineNo);
    var rest := ": [" + v.rule + "] " + v.line;
    assert s == v.path + ":" + digits + rest;
    var digitsStart := |v.path| + 1;
    var digitsEnd := digitsStart + |digits|;
    assert s[digitsStart..digitsEnd] == digits;
    assert s[digitsEnd] == ':';
    assert forall k :: digitsStart <= k < digitsEnd ==> IsDigit(s[k]) by {
      forall k | digitsStart <= k < digitsEnd
        ensures IsDigit(s[k])
      {
        assert s[k] == digits[k - digitsStart];
      }
    }
    assert DigitRunEnd(s, digitsStart) == digitsEnd;
    NatToStringRoundTrip(v.lineNo);
    assert s[digitsEnd..] == rest;
  }

  /** An entry of the regex rule list: description, pattern, and whether it
      is run over the whole text (true) or line by line (false). */
  datatype Rule = Rule(description: string, pattern: Pattern, multiline: bool)

  const REGEX_RULES: seq<Rule> := [
    Rule("Multi-parameter functions on single line", MULTI_PARAM, false),
    Rule("Functions without explicit return types", NO_RETURN_TYPE, true),
    Rule("Multi-parameter functions without return types", MULTI_PARAM_NO_RETURN_TYPE, true)
  ]

  /** What a line-by-line loop looks for: an over-long line, or a rule
      pattern that `search` finds in the line. */
  datatype LineCheck = TooLong | Finds(rule: Rule)
  {
    predicate Flags(line: string)
    {
      match this
      case TooLong => |line| > LINE_LENGTH_LIMIT
      case Finds(rule) => Search(line, rule.pattern)
    }

    function Tag(): string
    {
      match this
      case TooLong => LINE_LENGTH_RULE
      case Finds(rule) => rule.description
    }
  }

  /** The violations a line-by-line loop appends for the first `n` lines. */
  function PerLineViolations(path: string, lines: seq<string>, check: LineCheck, n: nat): seq<Violation>
    requires n <= |lines|
  {
    if n == 0 then []
    else
      PerLineViolations(path, lines, check, n - 1)
      + (if check.Flags(lines[n - 1]) then [NewViolation(path, n, check.Tag(), lines[n - 1])] else [])
  }

  /** Every span lies within a text of length `n`. */
  predicate SpansWithin(ms: seq<Span>, n: nat)
  {
    forall i :: 0 <= i < |ms| ==> ms[i].start <= ms[i].end <= n
  }

  /** The violation the whole-text loop reports for match `m`: its line is
      one more than the line feeds before the match, its text is the match
      with line feeds turned into blanks. */
  function MatchViolation(path: string, text: string, rule: Rule, m: Span): Violation
    requires m.start <= m.end <= |text|
  {
    NewViolation(path, LineNumberAt(text, m.start), rule.description, SpacesForNewlines(text[m.start..m.end]))
  }

  /** The violations the whole-text loop appends for the first `n` matches. */
  function MatchViolations(path: string, text: string, rule: Rule, ms: seq<Span>, n: nat): seq<Violation>
    requires n <= |ms| && SpansWithin(ms, |text|)
  {
    if n == 0 then []
    else MatchViolations(path, text, rule, ms, n - 1) + [MatchViolation(path, text, rule, ms[n - 1])]
  }

  /** What one entry of the rule list contributes. */
  function RuleViolations(path: string, text: string, rule: Rule): seq<Violation>
  {
    if rule.multiline then
      var ms := FindAll(text, rule.pattern, 0);
      MatchViolations(path, text, rule, ms, |ms|)
    else PerLineViolations(path, Lines(text), Finds(rule), |Lines(text)|)
  }

  /** What the given entries of the rule list contribute, in list order. */
  function RulesViolations(path: string, text: string, rules: seq<Rule>): seq<Violation>
  {
    if rules == [] then []
    else RulesViolations(path, text, rules[..|rules| - 1]) + RuleViolations(path, text, rules[|rules| - 1])
  }

  /** The result of checking one file: line-length violations first, then
      each rule of the list in order. */
  function FileViolations(path: string, text: string): seq<Violation>
  {
    PerLineViolations(path, Lines(text), TooLong, |Lines(text)|) + RulesViolations(path, text, REGEX_RULES)
  }

  /** `check_file`, on the already decoded text of the file: the
      line-length pass, then one pass per entry of the rule list. */
  method CheckFile(path: string, text: string) returns (violations: seq<Violation>)
    ensures violations == FileViolations(path, text)
  {
    violations := CheckLines(path, Lines(text), TooLong);
    ghost var lengthPart := violations;
    for r := 0 to |REGEX_RULES|
      invariant violations == lengthPart + RulesViolations(path, text, REGEX_RULES[..r])
    {
      var found := CheckRule(path, text, REGEX_RULES[r]);
      RulesViolationsStep(path, text, REGEX_RULES, r);
      AppendAssociates(lengthPart, RulesViolations(path, text, REGEX_RULES[..r]), found);
      violations := violations + found;
    }
    assert REGEX_RULES[..|REGEX_RULES|] == REGEX_RULES;
  }

  /** Associativity of joining reports, as one equation for the loop of
      `CheckFile` (the element-wise argument is kept out of that loop). */
  lemma {:induction false} AppendAssociates(a: seq<Violation>, b: seq<Violation>, c: seq<Violation>)
    ensures (a + b) + c == a + (b + c)
  {
  }

  lemma {:induction false} RulesViolationsStep(path: string, text: string, rules: seq<Rule>, r: nat)
    requires r < |rules|
    ensures RulesViolations(path, text, rules[..r + 1])
         == RulesViolations(path, text, rules[..r]) + RuleViolations(path, text, rules[r])
  {
    assert rules[..r + 1][..r] == rules[..r];
  }

  /** One line-by-line pass: the line-length loop, or the `search` loop of
      a rule that is not run over the whole text. */
  method CheckLines(path: string, lines: seq<string>, check: LineCheck) returns (found: seq<Violation>)
    ensures found == PerLineViolations(path, lines, check, |lines|)
  {
    found := [];
    for idx := 0 to |lines|
      invariant found == PerLineViolations(path, lines, check, idx)
    {
      if check.Flags(lines[idx]) {
        found := found + [NewViolation(path, idx + 1, check.Tag(), lines[idx])];
      }
    }
  }

  /** The `finditer` loop of a whole-text rule, over the matches found. */
  method ReportMatches(path: string, text: string, rule: Rule, matches: seq<Span>) returns (found: seq<Violation>)
    requires SpansWithin(matches, |text|)
    ensures found == MatchViolations(path, text, rule, matches, |matches|)
  {
    found := [];
    for k := 0 to |matches|
      invariant found == MatchViolations(path, text, rule, matches, k)
    {
      var v := ReportMatch(path, text, rule, matches[k]);
      found := found + [v];
    }
  }

  /** The body of the `finditer` loop: the line number counts the line
      feeds before the match, so it names a line of the text, and the
      snippet is the whole match on one line. */
  method ReportMatch(path: string, text: string, rule: Rule, m: Span) returns (v: Violation)
    requires m.start <= m.end <= |text|
    ensures v == MatchViolation(path, text, rule, m)
    ensures v.path == path && v.rule == rule.description
    ensures 1 <= v.lineNo <= CountNewlines(text) + 1
    ensures m.start < |text| ==> v.lineNo <= |Lines(text)|
    ensures |v.line| == m.end - m.start && '\n' !in v.line
  {
    var lineNo := LineNumberAt(text, m.start);
    var snippet := SpacesForNewlines(text[m.start..m.end]);
    v := NewViolation(path, lineNo, rule.description, snippet);
    MatchViolationShape(path, text, rule, m);
  }

  /** One entry of the rule list: the `finditer` loop over the whole text,
      or the line-by-line `search` loop. */
  method CheckRule(path: string, text: string, rule: Rule) returns (found: seq<Violation>)
    ensures found == RuleViolations(path, text, rule)
    ensures WellFormed(found, path, |Lines(text)|)
    ensures OneRuleInLineOrder(found, RuleRank(rule.description))
    ensures forall i :: 0 <= i < |found| ==> found[i].rule == rule.description
  {
    if rule.multiline {
      found := ReportMatches(path, text, rule, FindAll(text, rule.pattern, 0));
    } else {
      found := CheckLines(path, Lines(text), Finds(rule));
    }
    RuleViolationsShape(path, text, rule);
  }

  // ---------------------------------------------------------------------
  // Properties of the per-line loops

  /** Every entry of `vs` reports one of the first `n` lines, which the
      check flags, with that line's number and text. */
  ghost predicate FlaggedLinesOnly(vs: seq<Violation>, path: string, lines: seq<string>, check: LineCheck, n: nat)
    requires n <= |lines|
  {
    forall i :: 0 <= i < |vs| ==>
      && vs[i].path == path && vs[i].rule == check.Tag()
      && 1 <= vs[i].lineNo <= n
      && check.Flags(lines[vs[i].lineNo - 1])
      && vs[i].line == lines[vs[i].lineNo - 1]
  }

  /** No line number is reported twice, and they come in line order. */
  ghost predicate StrictlyIncreasingLines(vs: seq<Violation>)
  {
    forall i, j :: 0 <= i < j < |vs| ==> vs[i].lineNo < vs[j].lineNo
  }

  /** Only lines the check flags are reported, each with its own 1-based
      number and text. */
  lemma {:induction false} PerLineViolationsSound(path: string, lines: seq<string>, check: LineCheck, n: nat)
    requires n <= |lines|
    requires forall i :: 0 <= i < |lines| ==> '\n' !in lines[i]
    ensures FlaggedLinesOnly(PerLineViolations(path, lines, check, n), path, lines, check, n)
  {
    if n > 0 {
      PerLineViolationsSound(path, lines, check, n - 1);
      var prev := PerLineViolations(path, lines, check, n - 1);
      var vs := PerLineViolations(path, lines, check, n);
      if check.Flags(lines[n - 1]) {
        var v := NewViolation(path, n, check.Tag(), lines[n - 1]);
        assert v.line == lines[n - 1];
        assert vs == prev + [v];
        forall i | 0 <= i < |vs|
          ensures vs[i].path == path && vs[i].rule == check.Tag() && 1 <= vs[i].lineNo <= n
          ensures check.Flags(lines[vs[i].lineNo - 1]) && vs[i].line == lines[vs[i].lineNo - 1]
        {
          if i < |prev| {
            assert vs[i] == prev[i];
          } else {
            assert vs[i] == v;
          }
        }
      } else {
        assert vs == prev;
      }
    }
  }

  /** Each line is reported at most once: line numbers strictly increase. */
  lemma {:induction false} PerLineViolationsIncreasing(path: string, lines: seq<string>, check: LineCheck, n: nat)
    requires n <= |lines|
    requires forall i :: 0 <= i < |lines| ==> '\n' !in lines[i]
    ensures StrictlyIncreasingLines(PerLineViolations(path, lines, check, n))
  {
    if n > 0 {
      PerLineViolationsIncreasing(path, lines, check, n - 1);
      PerLineViolationsSound(path, lines, check, n - 1);
      var prev := PerLineViolations(path, lines, check, n - 1);
      var vs := PerLineViolations(path, lines, check, n);
      if check.Flags(lines[n - 1]) {
        var v := NewViolation(path, n, check.Tag(), lines[n - 1]);
        assert vs == prev + [v];
        forall i, j | 0 <= i < j < |vs|
          ensures vs[i].lineNo < vs[j].lineNo
        {
          assert vs[i] == prev[i];
          if j < |prev| {
            assert vs[j] == prev[j];
          } else {
            assert vs[j] == v;
          }
        }
      } else {
        assert vs == prev;
      }
    }
  }

  /** Every line the check flags is reported, with its number and text. */
  lemma {:induction false} PerLineViolationsComplete(path: string, lines: seq<string>, check: LineCheck, n: nat)
    requires n <= |lines|
    requires forall i :: 0 <= i < |lines| ==> '\n' !in lines[i]
    ensures forall k :: 0 <= k < n && check.Flags(lines[k]) ==>
              Violation(path, k + 1, check.Tag(), lines[k]) in PerLineViolations(path, lines, check, n)
  {
    if n > 0 {
      PerLineViolationsComplete(path, lines, check, n - 1);
      if check.Flags(lines[n - 1]) {
        RStripNewlinesShape(lines[n - 1]);
      }
    }
  }

  /** The line-length rule: exactly one violation for every line longer
      than 100 characters, carrying that line's number and text, and none
      for shorter lines. */
  lemma {:induction false} LongLinesReportedOnce(path: string, text: string, k: nat)
    requires k < |Lines(text)|
    ensures var vs := PerLineViolations(path, Lines(text), TooLong, |Lines(text)|);
            |Lines(text)[k]| > LINE_LENGTH_LIMIT <==> Violation(path, k + 1, LINE_LENGTH_RULE, Lines(text)[k]) in vs
    ensures StrictlyIncreasingLines(PerLineViolations(path, Lines(text), TooLong, |Lines(text)|))
  {
    LinesHaveNoNewline(text);
    PerLineViolationsSound(path, Lines(text), TooLong, |Lines(text)|);
    PerLineViolationsIncreasing(path, Lines(text), TooLong, |Lines(text)|);
    PerLineViolationsComplete(path, Lines(text), TooLong, |Lines(text)|);
  }

  // ---------------------------------------------------------------------
  // Properties of the whole-text loop

  /** One violation per match, in match order. */
  lemma {:induction false} MatchViolationsExact(path: string, text: string, rule: Rule, ms: seq<Span>, n: nat)
    requires n <= |ms| && SpansWithin(ms, |text|)
    ensures |MatchViolations(path, text, rule, ms, n)| == n
    ensures forall i :: 0 <= i < n ==> MatchViolations(path, text, rule, ms, n)[i] == MatchViolation(path, text, rule, ms[i])
  {
    if n > 0 {
      MatchViolationsExact(path, text, rule, ms, n - 1);
      var prev := MatchViolations(path, text, rule, ms, n - 1);
      var vs := MatchViolations(path, text, rule, ms, n);
      assert vs == prev + [MatchViolation(path, text, rule, ms[n - 1])];
      forall i | 0 <= i < n - 1
        ensures vs[i] == MatchViolation(path, text, rule, ms[i])
      {
        assert vs[i] == prev[i];
      }
    }
  }

  /** A whole-text violation names the file and the rule, its line number
      counts the line feeds before the match, and its text is the match
      with every line feed turned into a blank, so it holds none. */
  lemma {:induction false} MatchViolationShape(path: string, text: string, rule: Rule, m: Span)
    requires m.start <= m.end <= |text|
    ensures var v := MatchViolation(path, text, rule, m);
            && v.path == path && v.rule == rule.description
            && v.lineNo == CountNewlines(text[..m.start]) + 1
            && |v.line| == m.end - m.start
            && (forall k :: m.start <= k < m.end ==>
                  v.line[k - m.start] == (if text[k] == '\n' then ' ' else text[k]))
            && '\n' !in v.line
  {
    SpacesForNewlinesSlice(text, m.start, m.end);
    var v := MatchViolation(path, text, rule, m);
    assert v.line == SpacesForNewlines(text[m.start..m.end]);
    assert v.lineNo == CountNewlines(text[..m.start]) + 1;
  }

  /** Line numbers of a whole-text rule are at least 1, at most one more
      than the text's line feeds, name an existing line, and do not
      decrease along the report. */
  lemma {:induction false} WholeTextLineNumbers(path: string, text: string, rule: Rule)
    ensures forall i :: 0 <= i < |FindAll(text, rule.pattern, 0)| ==>
              var v := MatchViolation(path, text, rule, FindAll(text, rule.pattern, 0)[i]);
              1 <= v.lineNo <= CountNewlines(text) + 1 && v.lineNo <= |Lines(text)|
    ensures forall i, j :: 0 <= i < j < |FindAll(text, rule.pattern, 0)| ==>
              MatchViolation(path, text, rule, FindAll(text, rule.pattern, 0)[i]).lineNo
              <= MatchViolation(path, text, rule, FindAll(text, rule.pattern, 0)[j]).lineNo
  {
    var ms := FindAll(text, rule.pattern, 0);
    FindAllOrdered(text, rule.pattern, 0);
    forall i | 0 <= i < |ms|
      ensures var v := MatchViolation(path, text, rule, ms[i]);
              1 <= v.lineNo <= CountNewlines(text) + 1 && v.lineNo <= |Lines(text)|
    {
      MatchViolationShape(path, text, rule, ms[i]);
      LinePrefixCount(text, ms[i].start);
    }
    forall i, j | 0 <= i < j < |ms|
      ensures MatchViolation(path, text, rule, ms[i]).lineNo <= MatchViolation(path, text, rule, ms[j]).lineNo
    {
      MatchViolationShape(path, text, rule, ms[i]);
      MatchViolationShape(path, text, rule, ms[j]);
      CountNewlinesPrefix(text, ms[i].start, ms[j].start);
    }
  }

  /** The line a violation for a match names is the line on which the
      match's `func` keyword stands, at the match's column. */
  lemma {:induction false} MatchViolationOnItsLine(path: string, text: string, rule: Rule, m: Span)
    requires m.start <= m.end <= |text|
    requires MatchEnd(text, m.start, rule.pattern).Some?
    ensures var v := MatchViolation(path, text, rule, m);
            v.lineNo <= |Lines(text)| && OccursAt(Lines(text)[v.lineNo - 1], ColumnAt(text, m.start), "func")
  {
    MatchStartsWithKeyword(text, m.start, rule.pattern);
    PositionOnLine(text, m.start, 4);
  }

  /** So it is for every match a whole-text rule reports. */
  lemma {:induction false} WholeTextViolationOnItsLine(path: string, text: string, rule: Rule, m: Span)
    requires m in FindAll(text, rule.pattern, 0)
    ensures m.start <= m.end <= |text|
    ensures var v := MatchViolation(path, text, rule, m);
            v.lineNo <= |Lines(text)| && OccursAt(Lines(text)[v.lineNo - 1], ColumnAt(text, m.start), "func")
  {
    var ms := FindAll(text, rule.pattern, 0);
    var i :| 0 <= i < |ms| && ms[i] == m;
    FindAllMatches(text, rule.pattern, 0);
    MatchViolationOnItsLine(path, text, rule, m);
  }

  /** A multi-parameter header without return type is reported twice: every
      "Multi-parameter functions without return types" violation has a
      "Functions without explicit return types" twin with the same line
      number and text. */
  lemma {:induction false} MultiParamReportedTwice(path: string, text: string, v: Violation)
    requires v in RuleViolations(path, text, REGEX_RULES[2])
    ensures exists w :: w in RuleViolations(path, text, REGEX_RULES[1])
                        && w.lineNo == v.lineNo && w.line == v.line
                        && w.rule == "Functions without explicit return types"
  {
    var multi := REGEX_RULES[2];
    var plain := REGEX_RULES[1];
    var ms3 := FindAll(text, MULTI_PARAM_NO_RETURN_TYPE, 0);
    var ms2 := FindAll(text, NO_RETURN_TYPE, 0);
    var vs3 := MatchViolations(path, text, multi, ms3, |ms3|);
    var vs2 := MatchViolations(path, text, plain, ms2, |ms2|);
    assert RuleViolations(path, text, multi) == vs3;
    assert RuleViolations(path, text, plain) == vs2;
    MatchViolationsExact(path, text, multi, ms3, |ms3|);
    MatchViolationsExact(path, text, plain, ms2, |ms2|);
    var i :| 0 <= i < |vs3| && vs3[i] == v;
    MultiParamNoReturnSubset(text, 0);
    assert ms3[i] in ms3;
    var j :| 0 <= j < |ms2| && ms2[j] == ms3[i];
    assert vs2[j] in vs2;
    assert vs2[j] == MatchViolation(path, text, plain, ms3[i]);
  }

  // ---------------------------------------------------------------------
  // Properties of a whole file's report

  /** The order of the rules in the report: line length first, then the
      rule list in order. */
  function RuleRank(rule: string): nat
  {
    if rule == LINE_LENGTH_RULE then 0
    else if rule == REGEX_RULES[0].description then 1
    else if rule == REGEX_RULES[1].description then 2
    else if rule == REGEX_RULES[2].description then 3
    else 4
  }

  /** `a` may come before `b` in a file's report: an earlier rule, or the
      same rule and a line number that is not larger. */
  predicate InReportOrder(a: Violation, b: Violation)
  {
    RuleRank(a.rule) < RuleRank(b.rule) || (RuleRank(a.rule) == RuleRank(b.rule) && a.lineNo <= b.lineNo)
  }

  ghost predicate Ordered(vs: seq<Violation>)
  {
    forall i, j :: 0 <= i < j < |vs| ==> InReportOrder(vs[i], vs[j])
  }

  /** Every rule of `vs` has a rank in `lo..hi`. */
  ghost predicate RanksWithin(vs: seq<Violation>, lo: nat, hi: nat)
  {
    forall i :: 0 <= i < |vs| ==> lo <= RuleRank(vs[i].rule) <= hi
  }

  /** All of `vs` belong to one rule and come in line order. */
  ghost predicate OneRuleInLineOrder(vs: seq<Violation>, rank: nat)
  {
    && RanksWithin(vs, rank, rank)
    && (forall i, j :: 0 <= i < j < |vs| ==> vs[i].lineNo <= vs[j].lineNo)
  }

  /** Every entry names `path`, one of the first `lineCount` lines, and
      holds no line feed. */
  ghost predicate WellFormed(vs: seq<Violation>, path: string, lineCount: nat)
  {
    forall i :: 0 <= i < |vs| ==> vs[i].path == path && 1 <= vs[i].lineNo <= lineCount && '\n' !in vs[i].line
  }

  lemma {:induction false} OneRuleOrdered(vs: seq<Violation>, rank: nat)
    requires OneRuleInLineOrder(vs, rank)
    ensures Ordered(vs)
  {
  }

  /** Two ordered reports whose rules do not interleave make an ordered
      report. */
  lemma {:induction false} OrderedConcat(a: seq<Violation>, b: seq<Violation>, lo: nat, mid: nat, hi: nat)
    requires Ordered(a) && Ordered(b)
    requires mid <= hi && lo <= mid + 1
    requires RanksWithin(a, lo, mid) && RanksWithin(b, mid + 1, hi)
    ensures Ordered(a + b) && RanksWithin(a + b, lo, hi)
  {
  }

  lemma {:induction false} WellFormedConcat(a: seq<Violation>, b: seq<Violation>, path: string, lineCount: nat)
    requires WellFormed(a, path, lineCount) && WellFormed(b, path, lineCount)
    ensures WellFormed(a + b, path, lineCount)
  {
  }

  /** What one rule contributes is well formed, and all of it carries the
      rule's description (so its rank), in line order. */
  lemma {:induction false} RuleViolationsShape(path: string, text: string, rule: Rule)
    ensures WellFormed(RuleViolations(path, text, rule), path, |Lines(text)|)
    ensures OneRuleInLineOrder(RuleViolations(path, text, rule), RuleRank(rule.description))
    ensures forall i :: 0 <= i < |RuleViolations(path, text, rule)| ==>
              RuleViolations(path, text, rule)[i].rule == rule.description
  {
    if rule.multiline {
      var ms := FindAll(text, rule.pattern, 0);
      var vs := MatchViolations(path, text, rule, ms, |ms|);
      MatchViolationsExact(path, text, rule, ms, |ms|);
      WholeTextLineNumbers(path, text, rule);
      forall i | 0 <= i < |vs|
        ensures vs[i].path == path && 1 <= vs[i].lineNo <= |Lines(text)| && '\n' !in vs[i].line
        ensures vs[i].rule == rule.description
      {
        MatchViolationShape(path, text, rule, ms[i]);
      }
    } else {
      LinesHaveNoNewline(text);
      PerLineViolationsSound(path, Lines(text), Finds(rule), |Lines(text)|);
      PerLineViolationsIncreasing(path, Lines(text), Finds(rule), |Lines(text)|);
    }
  }

  /** The rule list's position decides the rank. */
  lemma {:induction false} RuleRanks()
    ensures RuleRank(LINE_LENGTH_RULE) == 0
    ensures forall r :: 0 <= r < |REGEX_RULES| ==> RuleRank(REGEX_RULES[r].description) == r + 1
  {
  }

  /** The contributions of the first entries of a rule list ranked by
      position are well formed and ordered by rule, then by line. */
  lemma {:induction false} RulesViolationsShape(path: string, text: string, rules: seq<Rule>)
    requires forall r :: 0 <= r < |rules| ==> RuleRank(rules[r].description) == r + 1
    ensures WellFormed(RulesViolations(path, text, rules), path, |Lines(text)|)
    ensures Ordered(RulesViolations(path, text, rules))
    ensures RanksWithin(RulesViolations(path, text, rules), 1, |rules|)
  {
    if rules != [] {
      var init := rules[..|rules| - 1];
      var last := rules[|rules| - 1];
      RulesViolationsShape(path, text, init);
      var before := RulesViolations(path, text, init);
      var own := RuleViolations(path, text, last);
      RuleViolationsShape(path, text, last);
      OneRuleOrdered(own, |rules|);
      OrderedConcat(before, own, 1, |rules| - 1, |rules|);
      WellFormedConcat(before, own, path, |Lines(text)|);
    }
  }

  /** A file's report lists all line-length violations first, then the
      violations of each rule in the rule list's order, each group in line
      order; and every violation names the file, an existing line, and
      holds no line feed. */
  lemma {:induction false} FileViolationsShape(path: string, text: string)
    ensures Ordered(FileViolations(path, text))
    ensures WellFormed(FileViolations(path, text), path, |Lines(text)|)
  {
    var lines := Lines(text);
    var lengthPart := PerLineViolations(path, lines, TooLong, |lines|);
    LinesHaveNoNewline(text);
    PerLineViolationsSound(path, lines, TooLong, |lines|);
    PerLineViolationsIncreasing(path, lines, TooLong, |lines|);
    RuleRanks();
    assert OneRuleInLineOrder(lengthPart, 0);
    OneRuleOrdered(lengthPart, 0);
    var rulesPart := RulesViolations(path, text, REGEX_RULES);
    RulesViolationsShape(path, text, REGEX_RULES);
    OrderedConcat(lengthPart, rulesPart, 0, 0, |REGEX_RULES|);
    WellFormedConcat(lengthPart, rulesPart, path, |lines|);
  }

  // ---------------------------------------------------------------------
  // The driver

  /** A file handed to the driver: its path and its decoded text. */
  datatype SourceFile = SourceFile(path: string, text: string)

  /** One file's report. */
  function FileReport(file: SourceFile): seq<Violation>
  {
    FileViolations(file.path, file.text)
  }

  /** The reports `report` gives for `files`, joined in file order. */
  function ConcatReports(files: seq<SourceFile>, report: SourceFile -> seq<Violation>): seq<Violation>
  {
    if files == [] then []
    else ConcatReports(files[..|files| - 1], report) + report(files[|files| - 1])
  }

  /** The joined reports are empty exactly when each report is. */
  lemma {:induction false} ConcatReportsEmpty(files: seq<SourceFile>, report: SourceFile -> seq<Violation>)
    ensures ConcatReports(files, report) == [] <==> forall i :: 0 <= i < |files| ==> report(files[i]) == []
  {
    if files != [] {
      var init := files[..|files| - 1];
      ConcatReportsEmpty(init, report);
      assert forall i :: 0 <= i < |init| ==> init[i] == files[i];
    }
  }

  /** Taking one more file appends its report. */
  lemma {:induction false} ConcatReportsStep(files: seq<SourceFile>, report: SourceFile -> seq<Violation>, i: nat)
    requires i < |files|
    ensures ConcatReports(files[..i + 1], report) == ConcatReports(files[..i], report) + report(files[i])
  {
    assert files[..i + 1][..i] == files[..i];
  }

  /** Everything `main` collects: each file's report, in file order. */
  function AllViolations(files: seq<SourceFile>): seq<Violation>
  {
    ConcatReports(files, FileReport)
  }

  /** `main` on a given list of files: checks every file in order, collects
      all violations, and exits with status 1 if there are any, else 0. */
  method RunStyleCheck(files: seq<SourceFile>) returns (allViolations: seq<Violation>, exitStatus: nat)
    ensures allViolations == AllViolations(files)
    ensures exitStatus == 0 || exitStatus == 1
    ensures exitStatus == 1 <==> exists i :: 0 <= i < |files| && FileReport(files[i]) != []
  {
    allViolations := [];
    for i := 0 to |files|
      invariant allViolations == AllViolations(files[..i])
    {
      var fileViolations := CheckFile(files[i].path, files[i].text);
      ConcatReportsStep(files, FileReport, i);
      allViolations := allViolations + fileViolations;
    }
    assert files[..|files|] == files;
    ConcatReportsEmpty(files, FileReport);
    exitStatus := if |allViolations| > 0 then 1 else 0;
  }
}
