/** The three fixed regular expressions of the style checker, written out as
    a deterministic matcher over strings, with Python's `re.search` and
    `re.finditer` on top of it.

    Every rule pattern has the shape
        func \s+ \w+ \( [^)]* \)                  (any parameter list)
        func \s+ \w+ \( [^)]* , [^)]* \)          (a comma in the list)
    optionally followed by `\s*:\s*$` (a colon that ends the line, so no
    return annotation), compiled with re.MULTILINE so that `$` matches at
    the end of the text and just before every '\n'.

    Under backtracking each part is forced: `\s+` must stop where `\w+`
    starts (no character is both), `\w+` must stop at the '(', `[^)]*` must
    stop at the first ')', and the comma variant ends at that same ')'. The
    one real choice is the last `\s*` before `$`: it is greedy, so the match
    ends at the LAST line end inside the whitespace run after the colon. */
module Patterns {
  import opened Wrappers

  /** `\s` on a str pattern: Python's whitespace characters. */
  predicate IsSpace(c: char)
  {
    var n := c as int;
    9 <= n <= 13 || 28 <= n <= 32 || n == 0x85 || n == 0xA0 || n == 0x1680
    || 0x2000 <= n <= 0x200A || n == 0x2028 || n == 0x2029 || n == 0x202F
    || n == 0x205F || n == 0x3000
  }

  /** What the matcher relies on about `\s`: line feeds, blanks and tabs
      are whitespace; no word character is, and neither are the `(`, `)`,
      `,` and `:` of a header. */
  lemma {:induction false} SpaceClass(c: char)
    ensures c == '\n' || c == ' ' || c == '\t' ==> IsSpace(c)
    ensures IsSpace(c) ==> !IsWord(c) && c != '(' && c != ')' && c != ',' && c != ':'
  {
  }

  /** `\w`, restricted to ASCII: letters, digits and '_'. */
  predicate IsWord(c: char)
  {
    'a' <= c <= 'z' || 'A' <= c <= 'Z' || '0' <= c <= '9' || c == '_'
  }

  /** Which of the three regular expressions: whether the parameter list
      must hold a comma, and whether `\s*:\s*$` must follow the ')'. */
  datatype Pattern = Pattern(needsComma: bool, needsColonAtEol: bool)

  /** `func\s+\w+\([^)]*,[^)]*\)` */
  const MULTI_PARAM: Pattern := Pattern(true, false)
  /** `func\s+\w+\([^)]*\)\s*:\s*$` */
  const NO_RETURN_TYPE: Pattern := Pattern(false, true)
  /** `func\s+\w+\([^)]*,[^)]*\)\s*:\s*$` */
  const MULTI_PARAM_NO_RETURN_TYPE: Pattern := Pattern(true, true)

  /** End of the run of whitespace that starts at `i`. */
  function SpaceRunEnd(t: string, i: nat): (j: nat)
    requires i <= |t|
    ensures i <= j <= |t|
    ensures j == |t| || !IsSpace(t[j])
    decreases |t| - i
  {
    if i < |t| && IsSpace(t[i]) then SpaceRunEnd(t, i + 1) else i
  }

  /** Everything the whitespace run covers is whitespace. */
  lemma {:induction false} SpaceRun(t: string, i: nat)
    requires i <= |t|
    ensures forall k :: i <= k < SpaceRunEnd(t, i) ==> IsSpace(t[k])
    decreases |t| - i
  {
    if i < |t| && IsSpace(t[i]) {
      SpaceRun(t, i + 1);
    }
  }

  /** End of the run of word characters that starts at `i`. */
  function WordRunEnd(t: string, i: nat): (j: nat)
    requires i <= |t|
    ensures i <= j <= |t|
    ensures j == |t| || !IsWord(t[j])
    decreases |t| - i
  {
    if i < |t| && IsWord(t[i]) then WordRunEnd(t, i + 1) else i
  }

  /** Everything the word run covers is a word character. */
  lemma {:induction false} WordRun(t: string, i: nat)
    requires i <= |t|
    ensures forall k :: i <= k < WordRunEnd(t, i) ==> IsWord(t[k])
    decreases |t| - i
  {
    if i < |t| && IsWord(t[i]) {
      WordRun(t, i + 1);
    }
  }

  /** The first ')' at or after `i`. */
  function CloseParenFrom(t: string, i: nat): (c: Option<nat>)
    requires i <= |t|
    ensures c.Some? ==> i <= c.value < |t| && t[c.value] == ')'
    decreases |t| - i
  {
    if i == |t| then None
    else if t[i] == ')' then Some(i)
    else CloseParenFrom(t, i + 1)
  }

  /** No ')' stands before the one found, and none at all when none is
      found. */
  lemma {:induction false} CloseParenFirst(t: string, i: nat)
    requires i <= |t|
    ensures CloseParenFrom(t, i).Some? ==> forall k :: i <= k < CloseParenFrom(t, i).value ==> t[k] != ')'
    ensures CloseParenFrom(t, i).None? ==> forall k :: i <= k < |t| ==> t[k] != ')'
    decreases |t| - i
  {
    if i < |t| && t[i] != ')' {
      CloseParenFirst(t, i + 1);
    }
  }

  /** The last '\n' in t[lo..hi]. */
  function LastNewlineIn(t: string, lo: nat, hi: nat): (k: Option<nat>)
    requires lo <= hi <= |t|
    ensures k.Some? ==> lo <= k.value < hi && t[k.value] == '\n'
    decreases hi - lo
  {
    if lo == hi then None
    else if t[hi - 1] == '\n' then Some(hi - 1)
    else LastNewlineIn(t, lo, hi - 1)
  }

  /** No '\n' stands after the one found, and none at all when none is
      found. */
  lemma {:induction false} LastNewlineLast(t: string, lo: nat, hi: nat)
    requires lo <= hi <= |t|
    ensures LastNewlineIn(t, lo, hi).Some? ==> forall j :: LastNewlineIn(t, lo, hi).value < j < hi ==> t[j] != '\n'
    ensures LastNewlineIn(t, lo, hi).None? ==> forall j :: lo <= j < hi ==> t[j] != '\n'
    decreases hi - lo
  {
    if lo < hi && t[hi - 1] != '\n' {
      LastNewlineLast(t, lo, hi - 1);
    }
  }

  predicate HasCommaIn(t: string, lo: nat, hi: nat)
    requires lo <= hi <= |t|
  {
    exists k :: lo <= k < hi && t[k] == ','
  }

  /** The four letters of `func` start at `s`. */
  predicate FuncAt(t: string, s: nat)
  {
    s + 4 <= |t| && t[s] == 'f' && t[s + 1] == 'u' && t[s + 2] == 'n' && t[s + 3] == 'c'
  }

  /** "func" followed by a blank starts at `k`. */
  ghost predicate KeywordAt(t: string, k: nat)
  {
    FuncAt(t, k) && k + 4 < |t| && IsSpace(t[k + 4])
  }

  /** Where the parts of a header `func\s+\w+\([^)]*\)` lie: the name starts
      at `nameStart`, the '(' is at `open`, the ')' at `close`. */
  datatype Header = Header(nameStart: nat, open: nat, close: nat)

  /** `h` is a way to read a header at `s`, part by part. */
  ghost predicate HeaderShape(t: string, s: nat, h: Header)
  {
    && s + 4 < h.nameStart < h.open < h.close < |t|
    && FuncAt(t, s)
    && (forall k :: s + 4 <= k < h.nameStart ==> IsSpace(t[k]))
    && (forall k :: h.nameStart <= k < h.open ==> IsWord(t[k]))
    && t[h.open] == '('
    && (forall k :: h.open < k < h.close ==> t[k] != ')')
    && t[h.close] == ')'
  }

  /** The header `func\s+\w+\([^)]*\)` anchored at `s`, if there is one. */
  function HeaderAt(t: string, s: nat): (h: Option<Header>)
    requires s <= |t|
    ensures h.Some? ==> && s + 4 < h.value.nameStart < h.value.open < h.value.close < |t|
                        && FuncAt(t, s) && t[h.value.open] == '(' && t[h.value.close] == ')'
  {
    if FuncAt(t, s) then
      var n := SpaceRunEnd(t, s + 4);
      var o := WordRunEnd(t, n);
      if n == s + 4 || o == n || o == |t| || t[o] != '(' then None
      else match CloseParenFrom(t, o + 1)
        case None => None
        case Some(c) => Some(Header(n, o, c))
    else None
  }

  /** What the header matcher reports is a header. */
  lemma {:induction false} HeaderAtShape(t: string, s: nat)
    requires s <= |t| && HeaderAt(t, s).Some?
    ensures HeaderShape(t, s, HeaderAt(t, s).value)
  {
    var h := HeaderAt(t, s).value;
    SpaceRun(t, s + 4);
    WordRun(t, h.nameStart);
    CloseParenFirst(t, h.open + 1);
  }

  /** `\s*:\s*$` from `q`: the end of the greedy match, which is the last
      line end inside the whitespace run after the colon. */
  function ColonAtEolEnd(t: string, q: nat): (e: Option<nat>)
    requires q <= |t|
    ensures e.Some? ==> q < e.value <= |t| && (e.value == |t| || t[e.value] == '\n')
  {
    var d := SpaceRunEnd(t, q);
    if d == |t| || t[d] != ':' then None
    else
      var r := SpaceRunEnd(t, d + 1);
      if r == |t| then Some(r) else LastNewlineIn(t, d + 1, r)
  }

  /** The end of the match of `p` anchored at `s` (Python's
      `p.match(t, s)`), if there is one. */
  function MatchEnd(t: string, s: nat, p: Pattern): (e: Option<nat>)
    requires s <= |t|
    ensures e.Some? ==> s < e.value <= |t| && HeaderAt(t, s).Some?
  {
    match HeaderAt(t, s)
    case None => None
    case Some(h) =>
      if p.needsComma && !HasCommaIn(t, h.open + 1, h.close) then None
      else if p.needsColonAtEol then ColonAtEolEnd(t, h.close + 1)
      else Some(h.close + 1)
  }

  /** What follows the ')' of a match: nothing, or blanks and the colon. */
  lemma {:induction false} MatchEndTail(t: string, s: nat, p: Pattern)
    requires s <= |t|
    requires MatchEnd(t, s, p).Some?
    ensures HeaderAt(t, s).value.close < MatchEnd(t, s, p).value
    ensures !p.needsColonAtEol ==> MatchEnd(t, s, p).value == HeaderAt(t, s).value.close + 1
    ensures forall k :: HeaderAt(t, s).value.close < k < MatchEnd(t, s, p).value ==>
              IsSpace(t[k]) || t[k] == ':'
  {
    var h := HeaderAt(t, s).value;
    if p.needsColonAtEol {
      var d := SpaceRunEnd(t, h.close + 1);
      SpaceRun(t, h.close + 1);
      SpaceRun(t, d + 1);
    }
  }

  /** Every match begins with the `func` keyword. */
  lemma {:induction false} MatchStartsWithKeyword(t: string, s: nat, p: Pattern)
    requires s <= |t|
    requires MatchEnd(t, s, p).Some?
    ensures s + 4 <= |t| && t[s..s + 4] == "func"
  {
  }

  /** The regular expression's own reading: t[s..e] is matched by `p`, with
      the header read as `h` and, when the pattern asks for it, the colon at
      `d`. */
  ghost predicate Decomposes(t: string, s: nat, h: Header, d: nat, e: nat, p: Pattern)
  {
    && HeaderShape(t, s, h)
    && (p.needsComma ==> exists k :: h.open < k < h.close && t[k] == ',')
    && if p.needsColonAtEol then
         && h.close < d < e <= |t|
         && (forall k :: h.close < k < d ==> IsSpace(t[k]))
         && t[d] == ':'
         && (forall k :: d < k < e ==> IsSpace(t[k]))
         && (e == |t| || t[e] == '\n')
       else e == h.close + 1
  }

  /** Every match the matcher reports is a match of the regular expression. */
  lemma {:induction false} MatchEndSound(t: string, s: nat, p: Pattern)
    requires s <= |t|
    requires MatchEnd(t, s, p).Some?
    ensures exists h, d :: Decomposes(t, s, h, d, MatchEnd(t, s, p).value, p)
  {
    var h := HeaderAt(t, s).value;
    var e := MatchEnd(t, s, p).value;
    HeaderAtShape(t, s);
    if p.needsColonAtEol {
      var d := SpaceRunEnd(t, h.close + 1);
      SpaceRun(t, h.close + 1);
      SpaceRun(t, d + 1);
      assert Decomposes(t, s, h, d, e, p);
    } else {
      assert Decomposes(t, s, h, h.close + 1, e, p);
    }
  }

  /** A header has only one reading, and the matcher finds it. */
  lemma {:induction false} HeaderUnique(t: string, s: nat, h: Header)
    requires s <= |t|
    requires HeaderShape(t, s, h)
    ensures HeaderAt(t, s) == Some(h)
  {
    SpaceRun(t, s + 4);
    WordRun(t, h.nameStart);
    CloseParenFirst(t, h.open + 1);
    assert IsWord(t[h.nameStart]);
    assert SpaceRunEnd(t, s + 4) == h.nameStart;
    assert WordRunEnd(t, h.nameStart) == h.open;
    var c := CloseParenFrom(t, h.open + 1);
    assert c.Some? && c.value == h.close;
  }

  /** Whenever the regular expression matches t[s..e], the matcher reports a
      match at `s`, ending at `e` or later (Python's greedy `\s*` takes the
      longest); without the colon tail the end is the same. */
  lemma {:induction false} MatchEndComplete(t: string, s: nat, h: Header, d: nat, e: nat, p: Pattern)
    requires s <= |t|
    requires Decomposes(t, s, h, d, e, p)
    ensures MatchEnd(t, s, p).Some?
    ensures e <= MatchEnd(t, s, p).value
    ensures !p.needsColonAtEol ==> MatchEnd(t, s, p).value == e
  {
    HeaderUnique(t, s, h);
    if p.needsComma {
      var k :| h.open < k < h.close && t[k] == ',';
      assert HasCommaIn(t, h.open + 1, h.close);
    }
    if p.needsColonAtEol {
      ColonAtEolComplete(t, h.close + 1, d, e);
    }
  }

  /** Whenever `\s*:\s*$` matches t[q..e] with the colon at `d`, the
      matcher reports a match from `q`, ending at `e` or later. */
  lemma {:induction false} ColonAtEolComplete(t: string, q: nat, d: nat, e: nat)
    requires q <= d < e <= |t|
    requires forall k :: q <= k < d ==> IsSpace(t[k])
    requires t[d] == ':'
    requires forall k :: d < k < e ==> IsSpace(t[k])
    requires e == |t| || t[e] == '\n'
    ensures ColonAtEolEnd(t, q).Some? && e <= ColonAtEolEnd(t, q).value
  {
    SpaceRun(t, q);
    assert SpaceRunEnd(t, q) == d;
    var r := SpaceRunEnd(t, d + 1);
    assert e <= r;
    if r < |t| {
      assert !IsSpace(t[r]);
      assert e < r;
      var last := LastNewlineIn(t, d + 1, r);
      LastNewlineLast(t, d + 1, r);
      assert t[e] == '\n';
      assert last.Some? && e <= last.value;
    }
  }

  /** A match: where it starts and where it ends. */
  datatype Span = Span(start: nat, end: nat)

  /** Python's `p.search(t, pos)`: the leftmost match starting at or after
      `pos`. */
  function SearchFrom(t: string, p: Pattern, pos: nat): (m: Option<Span>)
    requires pos <= |t|
    ensures m.Some? ==> pos <= m.value.start <= |t| && MatchEnd(t, m.value.start, p) == Some(m.value.end)
    decreases |t| - pos
  {
    match MatchEnd(t, pos, p)
    case Some(e) => Some(Span(pos, e))
    case None => if pos == |t| then None else SearchFrom(t, p, pos + 1)
  }

  /** The match found is the leftmost one: the pattern matches nowhere
      before it, and nowhere at all when nothing is found. */
  lemma {:induction false} SearchFromLeftmost(t: string, p: Pattern, pos: nat)
    requires pos <= |t|
    ensures SearchFrom(t, p, pos).Some? ==>
              forall q :: pos <= q < SearchFrom(t, p, pos).value.start ==> MatchEnd(t, q, p).None?
    ensures SearchFrom(t, p, pos).None? ==> forall q :: pos <= q <= |t| ==> MatchEnd(t, q, p).None?
    decreases |t| - pos
  {
    if MatchEnd(t, pos, p).None? && pos < |t| {
      SearchFromLeftmost(t, p, pos + 1);
    }
  }

  /** Python's `bool(p.search(line))`. */
  predicate Search(line: string, p: Pattern)
  {
    SearchFrom(line, p, 0).Some?
  }

  /** `search` succeeds exactly when the pattern matches somewhere in the
      line. */
  lemma {:induction false} SearchMatchesSomewhere(line: string, p: Pattern)
    ensures Search(line, p) <==> exists q :: 0 <= q <= |line| && MatchEnd(line, q, p).Some?
  {
    SearchFromLeftmost(line, p, 0);
    if Search(line, p) {
      var q := SearchFrom(line, p, 0).value.start;
      assert MatchEnd(line, q, p).Some?;
    }
  }

  /** Python's `p.finditer(t, pos)`: leftmost matches, each search resuming
      where the previous match ended. */
  function FindAll(t: string, p: Pattern, pos: nat): (ms: seq<Span>)
    requires pos <= |t|
    ensures forall i :: 0 <= i < |ms| ==> pos <= ms[i].start < ms[i].end <= |t|
    ensures forall i, j :: 0 <= i && j == i + 1 && j < |ms| ==> ms[i].end <= ms[j].start
    decreases |t| - pos
  {
    match SearchFrom(t, p, pos)
    case None => []
    case Some(m) =>
      var rest := FindAll(t, p, m.end);
      var ms := [m] + rest;
      assert forall j :: 0 < j < |ms| ==> ms[j] == rest[j - 1];
      ms
  }

  /** Every span finditer reports is a match of the pattern. */
  lemma {:induction false} FindAllMatches(t: string, p: Pattern, pos: nat)
    requires pos <= |t|
    ensures forall i :: 0 <= i < |FindAll(t, p, pos)| ==>
              MatchEnd(t, FindAll(t, p, pos)[i].start, p) == Some(FindAll(t, p, pos)[i].end)
    decreases |t| - pos
  {
    var ms := FindAll(t, p, pos);
    if ms != [] {
      var m := SearchFrom(t, p, pos).value;
      var rest := FindAll(t, p, m.end);
      FindAllMatches(t, p, m.end);
      assert ms == [m] + rest;
      forall i | 0 < i < |ms|
        ensures MatchEnd(t, ms[i].start, p) == Some(ms[i].end)
      {
        assert ms[i] == rest[i - 1];
      }
    }
  }

  /** The matches finditer reports do not overlap and come in text order. */
  lemma {:induction false} FindAllOrdered(t: string, p: Pattern, pos: nat)
    requires pos <= |t|
    ensures forall i, j :: 0 <= i < j < |FindAll(t, p, pos)| ==> FindAll(t, p, pos)[i].end <= FindAll(t, p, pos)[j].start
  {
    ChainOrdered(FindAll(t, p, pos));
  }

  /** Spans each ending no later than the next one starts are pairwise so. */
  lemma {:induction false} ChainOrdered(ms: seq<Span>)
    requires forall i :: 0 <= i < |ms| ==> ms[i].start < ms[i].end
    requires forall i, j :: 0 <= i && j == i + 1 && j < |ms| ==> ms[i].end <= ms[j].start
    ensures forall i, j :: 0 <= i < j < |ms| ==> ms[i].end <= ms[j].start
  {
    if |ms| > 1 {
      var init := ms[..|ms| - 1];
      ChainOrdered(init);
      forall i | 0 <= i < |ms| - 1
        ensures ms[i].end <= ms[|ms| - 1].start
      {
        assert init[i] == ms[i];
        if i < |ms| - 2 {
          assert init[|ms| - 2] == ms[|ms| - 2];
        }
      }
    }
  }

  /** A later starting point that does not pass the leftmost match finds
      the same match. */
  lemma {:induction false} SearchFromLater(t: string, p: Pattern, pos: nat, pos': nat)
    requires pos <= pos' <= |t|
    requires SearchFrom(t, p, pos).Some? && pos' <= SearchFrom(t, p, pos).value.start
    ensures SearchFrom(t, p, pos') == SearchFrom(t, p, pos)
  {
    var m := SearchFrom(t, p, pos).value;
    var m' := SearchFrom(t, p, pos');
    SearchFromLeftmost(t, p, pos);
    SearchFromLeftmost(t, p, pos');
    assert MatchEnd(t, m.start, p).Some?;
    assert m'.Some? && m'.value.start == m.start;
  }

  /** finditer misses no match: every position where the pattern matches is
      either a reported start or inside a reported match. */
  lemma {:induction false} FindAllCovers(t: string, p: Pattern, pos: nat, q: nat)
    requires pos <= q <= |t|
    requires MatchEnd(t, q, p).Some?
    ensures exists i :: 0 <= i < |FindAll(t, p, pos)| && FindAll(t, p, pos)[i].start <= q < FindAll(t, p, pos)[i].end
    decreases |t| - pos
  {
    var ms := FindAll(t, p, pos);
    SearchFromLeftmost(t, p, pos);
    var m := SearchFrom(t, p, pos).value;
    assert ms[0] == m;
    if q >= m.end {
      FindAllCovers(t, p, m.end, q);
      var rest := FindAll(t, p, m.end);
      var i :| 0 <= i < |rest| && rest[i].start <= q < rest[i].end;
      assert ms[i + 1] == rest[i];
    }
  }

  /** The comma variant matches only where the plain variant matches, with
      the same span. */
  lemma {:induction false} CommaVariantWithinPlain(t: string, s: nat, p: Pattern)
    requires s <= |t|
    requires MatchEnd(t, s, p).Some?
    ensures MatchEnd(t, s, Pattern(false, p.needsColonAtEol)) == MatchEnd(t, s, p)
  {
  }

  /** A header that starts inside a no-return-type match is nested in its
      parameter list and shares its ')'. */
  lemma {:induction false} NestedHeaderSharesClose(t: string, a: nat, b: nat)
    requires a < b <= |t|
    requires MatchEnd(t, a, NO_RETURN_TYPE).Some? && b < MatchEnd(t, a, NO_RETURN_TYPE).value
    requires HeaderAt(t, b).Some?
    ensures HeaderAt(t, a).value.open < HeaderAt(t, b).value.open
    ensures HeaderAt(t, b).value.close == HeaderAt(t, a).value.close
  {
    MatchEndTail(t, a, NO_RETURN_TYPE);
    HeaderAtShape(t, a);
    HeaderAtShape(t, b);
    NestedHeader(t, a, HeaderAt(t, a).value, MatchEnd(t, a, NO_RETURN_TYPE).value, b, HeaderAt(t, b).value);
  }

  /** The same, stated on the readings of the two headers. */
  lemma {:induction false} NestedHeader(t: string, a: nat, h: Header, e: nat, b: nat, hb: Header)
    requires HeaderShape(t, a, h) && HeaderShape(t, b, hb)
    requires a < b < e <= |t| && h.close < e
    requires forall k :: h.close < k < e ==> IsSpace(t[k]) || t[k] == ':'
    ensures h.open < hb.open && hb.close == h.close
  {
    // Inside the name, "func" followed by a blank is impossible: the name
    // runs on to the '('.
    assert forall k :: h.nameStart <= k < h.open ==> !KeywordAt(t, k) by {
      forall k | h.nameStart <= k < h.open
        ensures !KeywordAt(t, k)
      {
        if k + 4 < h.open {
          assert IsWord(t[k + 4]);
        }
      }
    }
    assert KeywordAt(t, b);
    // No 'f' stands in the rest of a's keyword, in its blanks, at its '('
    // or its ')', or after the ')': b lies in a's parameter list.
    assert h.open < b < h.close;
    // Nothing in b's header up to its '(' is a ')', so a's ')' lies beyond.
    assert forall k :: b <= k <= hb.open ==> t[k] != ')';
    assert hb.open < h.close;
  }

  /** A match of the multi-parameter no-return-type pattern starting inside a
      no-return-type match makes that outer match a multi-parameter one too. */
  lemma {:induction false} NestedMultiParamMatch(t: string, a: nat, b: nat)
    requires a < b <= |t|
    requires MatchEnd(t, a, NO_RETURN_TYPE).Some? && b < MatchEnd(t, a, NO_RETURN_TYPE).value
    requires MatchEnd(t, b, MULTI_PARAM_NO_RETURN_TYPE).Some?
    ensures MatchEnd(t, a, MULTI_PARAM_NO_RETURN_TYPE).Some?
  {
    NestedHeaderSharesClose(t, a, b);
    var h := HeaderAt(t, a).value;
    var hb := HeaderAt(t, b).value;
    var k :| hb.open + 1 <= k < hb.close && t[k] == ',';
    assert HasCommaIn(t, h.open + 1, h.close);
  }

  /** Every match finditer reports for "Multi-parameter functions without
      return types" is also reported, with the same span, for "Functions
      without explicit return types". */
  lemma {:induction false} MultiParamNoReturnSubset(t: string, pos: nat)
    requires pos <= |t|
    ensures forall m :: m in FindAll(t, MULTI_PARAM_NO_RETURN_TYPE, pos) ==> m in FindAll(t, NO_RETURN_TYPE, pos)
    decreases |t| - pos
  {
    var multi := MULTI_PARAM_NO_RETURN_TYPE;
    var plain := NO_RETURN_TYPE;
    SearchFromLeftmost(t, multi, pos);
    SearchFromLeftmost(t, plain, pos);
    match SearchFrom(t, multi, pos)
    case None =>
    case Some(m3) =>
      CommaVariantWithinPlain(t, m3.start, multi);
      var m2 := SearchFrom(t, plain, pos).value;
      assert m2.start <= m3.start;
      if m2.start == m3.start {
        MultiParamNoReturnSubset(t, m3.end);
      } else {
        if m3.start < m2.end {
          NestedMultiParamMatch(t, m2.start, m3.start);
          assert false;
        }
        SearchFromLater(t, multi, pos, m2.end);
        assert FindAll(t, multi, pos) == FindAll(t, multi, m2.end);
        MultiParamNoReturnSubset(t, m2.end);
      }
  }

  /** A header with a return annotation, such as `func f() -> int:`, is
      matched by neither return-type pattern: `\)\s*:` allows only blanks
      between ')' and ':'. */
  lemma {:induction false} ReturnAnnotationNotReported(t: string, s: nat, p: Pattern, h: Header, d: nat, e: nat)
    requires s <= |t| && p.needsColonAtEol
    requires HeaderAt(t, s).Some?
    requires var q := SpaceRunEnd(t, HeaderAt(t, s).value.close + 1);
             q + 1 < |t| && t[q..q + 2] == "->"
    ensures MatchEnd(t, s, p).None?
    ensures !Decomposes(t, s, h, d, e, p)
  {
    var q := SpaceRunEnd(t, HeaderAt(t, s).value.close + 1);
    assert t[q] == t[q..q + 2][0] == '-';
    if Decomposes(t, s, h, d, e, p) {
      MatchEndComplete(t, s, h, d, e, p);
      assert false;
    }
  }
}
