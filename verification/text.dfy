/** Plain-text helpers of the style checker: counting and splitting on line
    feeds, the two clean-ups applied to reported snippets, and the decimal
    rendering of line numbers. Lines are separated by '\n' only. */
module Text {

  /** Number of '\n' characters in `s` (Python's `s.count("\n")`). */
  function CountNewlines(s: string): (n: nat)
    ensures n <= |s|
    ensures n == 0 <==> '\n' !in s
  {
    if s == [] then 0
    else CountNewlines(s[..|s| - 1]) + (if s[|s| - 1] == '\n' then 1 else 0)
  }

  lemma {:induction false} CountNewlinesAppend(a: string, b: string)
    ensures CountNewlines(a + b) == CountNewlines(a) + CountNewlines(b)
    decreases |b|
  {
    if b == [] {
      assert a + b == a;
    } else {
      assert (a + b)[..|a + b| - 1] == a + b[..|b| - 1];
      CountNewlinesAppend(a, b[..|b| - 1]);
    }
  }

  /** Counting over a longer prefix never gives less. */
  lemma {:induction false} CountNewlinesPrefix(s: string, i: nat, j: nat)
    requires i <= j <= |s|
    ensures CountNewlines(s[..i]) <= CountNewlines(s[..j])
    ensures '\n' in s[i..j] ==> CountNewlines(s[..i]) < CountNewlines(s[..j])
  {
    assert s[..j] == s[..i] + s[i..j];
    CountNewlinesAppend(s[..i], s[i..j]);
  }

  /** Python's `s.split("\n")`: one more piece than there are line feeds. */
  function SplitOnNewlines(s: string): (pieces: seq<string>)
    ensures |pieces| == CountNewlines(s) + 1
  {
    if s == [] then [""]
    else
      var init := SplitOnNewlines(s[..|s| - 1]);
      var c := s[|s| - 1];
      if c == '\n' then init + [""]
      else init[..|init| - 1] + [init[|init| - 1] + [c]]
  }

  /** No piece holds a line feed. */
  lemma {:induction false} SplitPiecesHaveNoNewline(s: string)
    ensures forall i :: 0 <= i < |SplitOnNewlines(s)| ==> '\n' !in SplitOnNewlines(s)[i]
  {
    if s != [] {
      var init := SplitOnNewlines(s[..|s| - 1]);
      var c := s[|s| - 1];
      SplitPiecesHaveNoNewline(s[..|s| - 1]);
      var pieces := SplitOnNewlines(s);
      forall i | 0 <= i < |pieces|
        ensures '\n' !in pieces[i]
      {
        if i < |init| - 1 || c == '\n' {
          if i < |init| {
            assert pieces[i] == init[i];
          }
        } else {
          assert pieces[i] == init[|init| - 1] + [c];
        }
      }
    }
  }

  /** The pieces put back together with '\n' between neighbours. */
  function JoinWithNewlines(pieces: seq<string>): string
  {
    if pieces == [] then ""
    else if |pieces| == 1 then pieces[0]
    else JoinWithNewlines(pieces[..|pieces| - 1]) + "\n" + pieces[|pieces| - 1]
  }

  /** Splitting loses nothing: joining the pieces gives the text back. */
  lemma {:induction false} SplitJoinRoundTrip(s: string)
    ensures JoinWithNewlines(SplitOnNewlines(s)) == s
  {
    if s != [] {
      var init := SplitOnNewlines(s[..|s| - 1]);
      var c := s[|s| - 1];
      SplitJoinRoundTrip(s[..|s| - 1]);
      assert s == s[..|s| - 1] + [c];
      if c == '\n' {
        JoinAppendPiece(init, "");
      } else {
        JoinExtendLastPiece(init, c);
      }
    }
  }

  /** Joining one more piece adds a line feed and the piece. */
  lemma {:induction false} JoinAppendPiece(pieces: seq<string>, piece: string)
    requires pieces != []
    ensures JoinWithNewlines(pieces + [piece]) == JoinWithNewlines(pieces) + "\n" + piece
  {
    assert (pieces + [piece])[..|pieces|] == pieces;
  }

  /** Growing the last piece grows the joined text at its end. */
  lemma {:induction false} JoinExtendLastPiece(pieces: seq<string>, c: char)
    requires pieces != []
    ensures JoinWithNewlines(pieces[..|pieces| - 1] + [pieces[|pieces| - 1] + [c]]) == JoinWithNewlines(pieces) + [c]
  {
    var n := |pieces|;
    var last := pieces[n - 1];
    var grown := pieces[..n - 1] + [last + [c]];
    assert |grown| == n && grown[n - 1] == last + [c];
    if n == 1 {
      assert grown == [last + [c]];
    } else {
      var front := JoinWithNewlines(pieces[..n - 1]);
      assert grown[..n - 1] == pieces[..n - 1];
      assert JoinWithNewlines(grown) == front + "\n" + (last + [c]);
      assert JoinWithNewlines(pieces) == front + "\n" + last;
      assert front + "\n" + (last + [c]) == (front + "\n" + last) + [c];
    }
  }

  /** Python's `text.splitlines()` restricted to '\n' as the only line
      boundary: the pieces of `split`, without the empty piece after a final
      '\n', and no line at all for the empty text. */
  function Lines(text: string): (lines: seq<string>)
    ensures |lines| == CountNewlines(text) + (if text != [] && text[|text| - 1] != '\n' then 1 else 0)
  {
    var pieces := SplitOnNewlines(text);
    if text == [] then []
    else if text[|text| - 1] == '\n' then pieces[..|pieces| - 1]
    else pieces
  }

  /** No line holds a line feed. */
  lemma {:induction false} LinesHaveNoNewline(text: string)
    ensures forall i :: 0 <= i < |Lines(text)| ==> '\n' !in Lines(text)[i]
  {
    SplitPiecesHaveNoNewline(text);
    var pieces := SplitOnNewlines(text);
    forall i | 0 <= i < |Lines(text)|
      ensures '\n' !in Lines(text)[i]
    {
      assert Lines(text)[i] == pieces[i];
    }
  }

  /** The lines, joined with '\n' and followed by the final '\n' when the
      text has one, are the text. */
  lemma {:induction false} LinesRoundTrip(text: string)
    ensures JoinWithNewlines(Lines(text)) + (if text != [] && text[|text| - 1] == '\n' then "\n" else "") == text
  {
    SplitJoinRoundTrip(text);
    if text != [] && text[|text| - 1] == '\n' {
      var pieces := SplitOnNewlines(text);
      var init := SplitOnNewlines(text[..|text| - 1]);
      assert pieces == init + [""];
      assert pieces[..|pieces| - 1] == init;
      SplitJoinRoundTrip(text[..|text| - 1]);
      assert text == text[..|text| - 1] + "\n";
    }
  }

  /** The 1-based line number of position `pos`: one more than the line
      feeds strictly before it. */
  function LineNumberAt(text: string, pos: nat): (n: nat)
    requires pos <= |text|
    ensures 1 <= n <= CountNewlines(text) + 1
    ensures pos < |text| ==> n <= |Lines(text)|
  {
    LinePrefixCount(text, pos);
    CountNewlines(text[..pos]) + 1
  }

  lemma {:induction false} LinePrefixCount(text: string, pos: nat)
    requires pos <= |text|
    ensures CountNewlines(text[..pos]) <= CountNewlines(text)
    ensures pos < |text| ==> CountNewlines(text[..pos]) < |Lines(text)|
  {
    assert text[..|text|] == text;
    CountNewlinesPrefix(text, pos, |text|);
    if pos < |text| && text[|text| - 1] == '\n' {
      assert text[pos..|text|][|text| - 1 - pos] == '\n';
    }
  }

  /** The piece of `text[..p]` that `split` leaves last is the start of the
      piece of `text` with the same index. */
  lemma {:induction false} SplitPrefix(text: string, p: nat)
    requires p <= |text|
    ensures CountNewlines(text[..p]) < |SplitOnNewlines(text)|
    ensures SplitOnNewlines(text[..p])[CountNewlines(text[..p])]
            <= SplitOnNewlines(text)[CountNewlines(text[..p])]
    decreases |text|
  {
    if p < |text| {
      var t' := text[..|text| - 1];
      assert t'[..p] == text[..p];
      SplitPrefix(t', p);
      assert text == t' + [text[|text| - 1]];
    } else {
      assert text[..p] == text;
    }
  }

  /** The 0-based column of position `pos`: how many characters stand
      between the last line feed before it and it. */
  function ColumnAt(text: string, pos: nat): nat
    requires pos <= |text|
  {
    var pieces := SplitOnNewlines(text[..pos]);
    |pieces[|pieces| - 1]|
  }

  /** A stretch of text without line feeds stands, in the line numbered as
      its first position, at that position's column. */
  lemma {:induction false} PositionOnLine(text: string, pos: nat, k: nat)
    requires pos + k <= |text| && 0 < k
    requires '\n' !in text[pos..pos + k]
    ensures LineNumberAt(text, pos) <= |Lines(text)|
    ensures OccursAt(Lines(text)[LineNumberAt(text, pos) - 1], ColumnAt(text, pos), text[pos..pos + k])
  {
    var n := CountNewlines(text[..pos]);
    PieceHoldsStretch(text, pos, k);
    LinePrefixCount(text, pos);
    assert Lines(text)[n] == SplitOnNewlines(text)[n];
  }

  lemma PieceHoldsStretch(text: string, pos: nat, k: nat)
    requires pos + k <= |text| && 0 < k
    requires '\n' !in text[pos..pos + k]
    ensures CountNewlines(text[..pos]) < |SplitOnNewlines(text)|
    ensures OccursAt(SplitOnNewlines(text)[CountNewlines(text[..pos])], ColumnAt(text, pos), text[pos..pos + k])
  {
    var w := text[pos..pos + k];
    var b := SplitOnNewlines(text);
    var a := SplitOnNewlines(text[..pos + k]);
    SplitPrefix(text, pos + k);
    var n := CountNewlines(text[..pos + k]);
    assert n < |b|;
    assert a[n] <= b[n];
    StretchExtendsLastPiece(text, pos, k);
    var col := ColumnAt(text, pos);
    assert a[n] == SplitOnNewlines(text[..pos])[n] + w;
    assert b[n][col..col + k] == w by {
      assert b[n][..col + k] == a[n];
    }
  }

  /** Taking a stretch without line feeds into a prefix keeps the number of
      line feeds and adds the stretch to the last piece. */
  lemma {:induction false} StretchExtendsLastPiece(text: string, pos: nat, k: nat)
    requires pos + k <= |text|
    requires '\n' !in text[pos..pos + k]
    ensures CountNewlines(text[..pos + k]) == CountNewlines(text[..pos])
    ensures SplitOnNewlines(text[..pos + k])[CountNewlines(text[..pos])]
            == SplitOnNewlines(text[..pos])[CountNewlines(text[..pos])] + text[pos..pos + k]
  {
    assert text[..pos + k] == text[..pos] + text[pos..pos + k];
    CountNewlinesAppend(text[..pos], text[pos..pos + k]);
    SplitNoNewlineExtends(text[..pos], text[pos..pos + k]);
  }

  /** `w` occurs in `line` starting at column `col`. */
  ghost predicate OccursAt(line: string, col: int, w: string)
  {
    0 <= col && col + |w| <= |line| && line[col..col + |w|] == w
  }

  /** Appending text without line feeds only extends the last piece. */
  lemma {:induction false} SplitNoNewlineExtends(a: string, w: string)
    requires '\n' !in w
    ensures var pa := SplitOnNewlines(a);
            var pw := SplitOnNewlines(a + w);
            |pw| == |pa| && pw[..|pa| - 1] == pa[..|pa| - 1] && pw[|pa| - 1] == pa[|pa| - 1] + w
    decreases |w|
  {
    if w == [] {
      assert a + w == a;
    } else {
      var w' := w[..|w| - 1];
      var c := w[|w| - 1];
      assert w == w' + [c];
      assert a + w == (a + w') + [c];
      assert c in w;
      assert '\n' !in w' by {
        forall i | 0 <= i < |w'| ensures w'[i] != '\n' { assert w'[i] == w[i]; }
      }
      SplitNoNewlineExtends(a, w');
      SplitAppendChar(a + w', c);
      GrowLastPiece(SplitOnNewlines(a), SplitOnNewlines(a + w'), w', c);
    }
  }

  /** `split` on a text grown by one character other than a line feed:
      the last piece grows by that character. */
  lemma {:induction false} SplitAppendChar(s: string, c: char)
    requires c != '\n'
    ensures var init := SplitOnNewlines(s);
            SplitOnNewlines(s + [c]) == init[..|init| - 1] + [init[|init| - 1] + [c]]
  {
    assert (s + [c])[..|s|] == s;
  }

  /** Growing the last piece of a piece list that extends `pa`'s last
      piece by `w` extends it by `w + [c]`. */
  lemma {:induction false} GrowLastPiece(pa: seq<string>, prev: seq<string>, w: string, c: char)
    requires pa != [] && |prev| == |pa|
    requires prev[..|pa| - 1] == pa[..|pa| - 1] && prev[|pa| - 1] == pa[|pa| - 1] + w
    ensures var pw := prev[..|prev| - 1] + [prev[|prev| - 1] + [c]];
            |pw| == |pa| && pw[..|pa| - 1] == pa[..|pa| - 1] && pw[|pa| - 1] == pa[|pa| - 1] + (w + [c])
  {
    var n := |pa|;
    var pw := prev[..n - 1] + [prev[n - 1] + [c]];
    assert pw[..n - 1] == prev[..n - 1];
    assert pw[n - 1] == (pa[n - 1] + w) + [c];
  }

  /** Python's `s.rstrip("\n")`: drops every trailing line feed. */
  function RStripNewlines(s: string): (r: string)
    ensures |r| <= |s|
  {
    if s != [] && s[|s| - 1] == '\n' then RStripNewlines(s[..|s| - 1]) else s
  }

  /** Stripping keeps a prefix, removes only line feeds, and removes all of
      the trailing ones; a text without line feeds is kept whole. */
  lemma {:induction false} RStripNewlinesShape(s: string)
    ensures RStripNewlines(s) <= s
    ensures forall i :: |RStripNewlines(s)| <= i < |s| ==> s[i] == '\n'
    ensures RStripNewlines(s) == [] || RStripNewlines(s)[|RStripNewlines(s)| - 1] != '\n'
    ensures '\n' !in s ==> RStripNewlines(s) == s
  {
    if s != [] && s[|s| - 1] == '\n' {
      RStripNewlinesShape(s[..|s| - 1]);
    }
  }

  /** Python's `s.replace("\n", " ")`. */
  function SpacesForNewlines(s: string): (r: string)
    ensures |r| == |s|
  {
    if s == [] then []
    else SpacesForNewlines(s[..|s| - 1]) + [if s[|s| - 1] == '\n' then ' ' else s[|s| - 1]]
  }

  /** Each line feed becomes a blank and every other character stays, so
      no line feed is left. */
  lemma {:induction false} SpacesForNewlinesShape(s: string)
    ensures forall i :: 0 <= i < |s| ==> SpacesForNewlines(s)[i] == (if s[i] == '\n' then ' ' else s[i])
    ensures '\n' !in SpacesForNewlines(s)
  {
    if s != [] {
      SpacesForNewlinesShape(s[..|s| - 1]);
    }
  }

  /** The same, read at the positions of the text a slice was cut from. */
  lemma {:induction false} SpacesForNewlinesSlice(text: string, lo: nat, hi: nat)
    requires lo <= hi <= |text|
    ensures forall k :: lo <= k < hi ==>
              SpacesForNewlines(text[lo..hi])[k - lo] == (if text[k] == '\n' then ' ' else text[k])
    ensures '\n' !in SpacesForNewlines(text[lo..hi])
  {
    SpacesForNewlinesShape(text[lo..hi]);
    forall k | lo <= k < hi
      ensures SpacesForNewlines(text[lo..hi])[k - lo] == (if text[k] == '\n' then ' ' else text[k])
    {
      assert text[lo..hi][k - lo] == text[k];
    }
  }

  predicate IsDigit(c: char)
  {
    '0' as int <= c as int <= '9' as int
  }

  function DigitChar(d: nat): (c: char)
    requires d < 10
    ensures IsDigit(c)
  {
    ('0' as int + d) as char
  }

  /** Decimal rendering of a natural number, as Python's `str(n)`. */
  function NatToString(n: nat): (s: string)
    ensures 1 <= |s|
    ensures forall i :: 0 <= i < |s| ==> IsDigit(s[i])
    ensures s[0] == '0' ==> n == 0
  {
    if n < 10 then [DigitChar(n)] else NatToString(n / 10) + [DigitChar(n % 10)]
  }

  /** The value of a string of decimal digits. */
  function DigitsValue(s: string): nat
    requires forall i :: 0 <= i < |s| ==> IsDigit(s[i])
  {
    if s == [] then 0
    else
      assert IsDigit(s[|s| - 1]);
      DigitsValue(s[..|s| - 1]) * 10 + (s[|s| - 1] as int - '0' as int)
  }

  /** Reading the digits back gives the number. */
  lemma {:induction false} NatToStringRoundTrip(n: nat)
    ensures DigitsValue(NatToString(n)) == n
  {
    var s := NatToString(n);
    if n >= 10 {
      NatToStringRoundTrip(n / 10);
      assert s[..|s| - 1] == NatToString(n / 10);
    } else {
      assert s[..|s| - 1] == [];
    }
  }

  /** End of the run of decimal digits that starts at `i`. */
  function DigitRunEnd(s: string, i: nat): (j: nat)
    requires i <= |s|
    ensures i <= j <= |s|
    ensures forall k :: i <= k < j ==> IsDigit(s[k])
    ensures j == |s| || !IsDigit(s[j])
    decreases |s| - i
  {
    if i < |s| && IsDigit(s[i]) then DigitRunEnd(s, i + 1) else i
  }
}
