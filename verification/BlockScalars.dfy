/**
 Where block scalars end, said of lines and columns: a block runs on over every line that is
 empty or indented deeper than its key, and ends before the first line that is neither.
*/
module BlockScalars {
  import opened Options
  import opened Redaction
  import opened ValueEnds

  // ---- Lines and columns ----

  /** A line starts here: behind a break, and not between a return and its line feed. */
  predicate StartsLine(v: string, p: nat) {
    0 < p <= |v| && Break(v[p - 1]) && !(v[p - 1] == '\r' && p < |v| && v[p] == '\n')
  }

  /** The line behind the break at `b` starts at `q`. */
  predicate LineBehind(v: string, b: nat, q: nat) {
    b < |v| && Break(v[b]) && q == if v[b] == '\r' && b + 1 < |v| && v[b + 1] == '\n' then b + 2 else b + 1
  }

  /** The index is the line feed of a return before it. */
  predicate SecondHalf(v: string, e: nat) { 0 < e < |v| && v[e - 1] == '\r' && v[e] == '\n' }

  /** Nothing but blanks is on the line that starts at `p`. */
  ghost predicate EmptyLine(v: string, p: nat) { exists f: nat :: BlankTo(v, p, f) }

  predicate BlankTo(v: string, p: nat, f: nat) {
    p <= f <= |v| && (forall k :: p <= k < f ==> Blank(v[k])) && (f < |v| ==> Break(v[f]))
  }

  /** The first character on the line that starts at `p` that is no blank. */
  predicate ContentAt(v: string, p: nat, f: nat) {
    p <= f < |v| && (forall k :: p <= k < f ==> Blank(v[k])) && !Blank(v[f]) && !Break(v[f])
  }

  ghost predicate Deeper(v: string, p: nat, column: nat) { exists f: nat :: ContentAt(v, p, f) && f - p > column }

  ghost predicate Outdented(v: string, p: nat, column: nat) { exists f: nat :: ContentAt(v, p, f) && f - p <= column }

  /** So many characters lie between the start of its line and the index. */
  predicate ColumnIs(v: string, k: nat, column: nat) {
    column <= k <= |v| && (forall i :: k - column <= i < k ==> !Break(v[i]))
    && (k - column > 0 ==> Break(v[k - column - 1]))
  }

  lemma {:induction false} ColumnExactly(v: string, k: nat, column: nat)
    requires k <= |v|
    ensures k - LineBegin(v, k) == column <==> ColumnIs(v, k, column)
    decreases k
  {
    if k > 0 && !IsNewline(v[k - 1]) {
      if column > 0 {
        ColumnExactly(v, k - 1, column - 1);
      } else {
        LineBeginBehind(v, k);
      }
    }
  }

  lemma LineBeginBehind(v: string, k: nat)
    requires 0 < k <= |v| && !IsNewline(v[k - 1])
    ensures LineBegin(v, k) < k
  {
  }

  // ---- The lines of a block ----

  /** From the break at `from` on, the block in this column runs to `e`. */
  ghost predicate RunsTo(v: string, from: nat, column: nat, e: nat) {
    && from <= e <= |v| && !SecondHalf(v, e)
    && (forall p :: from < p <= e && StartsLine(v, p) ==> EmptyLine(v, p) || Deeper(v, p, column))
    && (e < |v| ==> Break(v[e]) && exists q: nat :: LineBehind(v, e, q) && Outdented(v, q, column))
  }

  /** What the scan sees of one line. */
  lemma LineKinds(v: string, p: nat, column: nat)
    requires p < |v|
    ensures var b, first := LineBreak(v, p), BlankEnd(v, p);
            && (first < b && first - p <= column <==> Outdented(v, p, column))
            && (EmptyLine(v, p) || Deeper(v, p, column) <==> !Outdented(v, p, column))
  {
    var b, first := LineBreak(v, p), BlankEnd(v, p);
    if first < b {
      assert ContentAt(v, p, first);
    } else {
      assert BlankTo(v, p, first);
    }
    assert forall f :: ContentAt(v, p, f) ==> f == first;
  }

  lemma NoLineInside(v: string, line: nat, b: nat, p: nat)
    requires line <= |v| && b == LineBreak(v, line) && line < p <= b
    ensures !StartsLine(v, p)
  {
  }

  lemma NextLineIs(v: string, b: nat)
    requires b < |v| && Break(v[b])
    ensures LineBehind(v, b, NextLine(v, b)) && StartsLine(v, NextLine(v, b))
    ensures forall p :: b < p < NextLine(v, b) ==> !StartsLine(v, p)
  {
  }

  lemma {:induction false} LinesRunTo(v: string, line: nat, from: nat, column: nat)
    requires from < line <= |v| && IsNewline(v[from]) && !SecondHalf(v, from) && line == NextLine(v, from)
    ensures RunsTo(v, from, column, BlockLines(v, line, from, column))
    decreases |v| - line
  {
    hide LineBreak, BlankEnd, NextLine, EmptyLine, Deeper, Outdented;
    NextLineIs(v, from);
    var r := BlockLines(v, line, from, column);
    if line >= |v| {
      AtEndEmpty(v);
    } else {
      LineKinds(v, line, column);
      var b := LineBreak(v, line);
      if Outdented(v, line, column) {
        assert r == from;
      } else {
        forall p | from < p <= b && StartsLine(v, p) ensures p == line {
          if p > line { NoLineInside(v, line, b, p); }
        }
        BreakOnLine(v, line);
        if b < |v| {
          LinesRunTo(v, NextLine(v, b), b, column);
        } else {
          NextLineAtEnd(v);
        }
      }
    }
  }

  lemma AtEndEmpty(v: string)
    ensures EmptyLine(v, |v|) && !SecondHalf(v, |v|)
    ensures forall column: nat :: !Outdented(v, |v|, column)
  {
    assert BlankTo(v, |v|, |v|);
  }

  lemma NextLineAtEnd(v: string)
    ensures NextLine(v, |v|) == |v|
  {
  }

  lemma BreakOnLine(v: string, line: nat)
    requires line <= |v| && StartsLine(v, line)
    ensures !SecondHalf(v, LineBreak(v, line))
    ensures LineBreak(v, line) < |v| ==> NextLine(v, LineBreak(v, line)) != LineBreak(v, line)
  {
  }

  lemma {:induction false} LinesEndOnlyThere(v: string, line: nat, from: nat, column: nat, e: nat)
    requires from < line <= |v| && IsNewline(v[from]) && !SecondHalf(v, from) && line == NextLine(v, from)
    requires RunsTo(v, from, column, e)
    ensures BlockLines(v, line, from, column) == e
    decreases |v| - line
  {
    hide LineBreak, BlankEnd, NextLine, EmptyLine, Deeper, Outdented;
    NextLineIs(v, from);
    if line < |v| {
      LineKinds(v, line, column);
      var b := LineBreak(v, line);
      BreakOnLine(v, line);
      if e > from {
        BehindBreak(v, from, line, e);
        if b < |v| {
          LinesEndOnlyThere(v, NextLine(v, b), b, column, e);
        } else {
          NextLineAtEnd(v);
        }
      }
    } else {
      AtEndEmpty(v);
      if e > from { BehindBreak(v, from, line, e); }
    }
  }

  /** An end behind the break lies on the next line or later. */
  lemma BehindBreak(v: string, from: nat, line: nat, e: nat)
    requires from < line <= |v| && line == NextLine(v, from) && IsNewline(v[from])
    requires from < e <= |v| && !SecondHalf(v, e) && (e < |v| ==> Break(v[e]))
    ensures line <= e && (line < |v| ==> LineBreak(v, line) <= e)
  {
  }

  // ---- Block scalars ----

  /** A literal or folded block, with a chomping sign, an indentation digit, or both in either order. */
  predicate Indicator(t: string) {
    && t != "" && (t[0] == '|' || t[0] == '>')
    && var mods := t[1..];
       || mods == "" || mods == "+" || mods == "-"
       || (|mods| == 1 && '1' <= mods[0] <= '9')
       || (|mods| == 2 && (mods[0] == '+' || mods[0] == '-') && '1' <= mods[1] <= '9')
       || (|mods| == 2 && '1' <= mods[0] <= '9' && (mods[1] == '+' || mods[1] == '-'))
  }

  lemma IndicatorExactly(t: string)
    ensures IsBlockIndicator(t) <==> Indicator(t)
  {
    if |t| >= 1 {
      var mods := t[1..];
      assert |mods| == |t| - 1;
      assert |t| >= 2 ==> mods[0] == t[1];
      assert |t| >= 3 ==> mods[1] == t[2];
      assert |mods| == 1 ==> (mods == "+" <==> mods[0] == '+') && (mods == "-" <==> mods[0] == '-');
    }
  }

  /** The value at `s` of the key at `k` is a block scalar that ends at `e`. */
  ghost predicate BlockEndsAt(v: string, s: nat, k: nat, e: nat) {
    exists l: nat, c: nat, he: nat, column: nat ::
      && LineValueEndsAt(v, s, l, c, he) && Indicator(v[s..he]) && ColumnIs(v, k, column)
      && if l == |v| then e == |v| else RunsTo(v, l, column, e)
  }

  /**
   A block scalar ends with the text, or at the break before the first line with content that
   is not indented deeper than the key; every line of it before is empty or deeper.
  */
  lemma BlockEndExactly(v: string, s: nat, k: nat, e: nat)
    requires s <= |v| && k <= |v|
    ensures BlockEnd(v, s, k) == Some(e) <==> BlockEndsAt(v, s, k, e)
    ensures BlockEnd(v, s, k) == None <==> !Indicator(v[s..LineValueEnd(v, s)])
  {
    hide LineValueEnd, BlockLines, RunsTo, LineBegin, IsBlockIndicator, Indicator, NextLine;
    var he, l := LineValueEnd(v, s), LineBreak(v, s);
    IndicatorExactly(v[s..he]);
    if Indicator(v[s..he]) {
      LineValueEndExactly(v, s, he);
      var l': nat, c: nat :| LineValueEndsAt(v, s, l', c, he);
      LineEndIs(v, s, l');
      BlockHeader(v, s, he);
      var column := k - LineBegin(v, k);
      ColumnExactly(v, k, column);
      if l < |v| {
        HeaderRuns(v, s, l, column, e);
      } else {
        NextLineAtEnd(v);
      }
      if BlockEnd(v, s, k) == Some(e) {
        assert LineValueEndsAt(v, s, l, c, he);
        assert BlockEndsAt(v, s, k, e);
      }
    }
    if BlockEndsAt(v, s, k, e) {
      BlockEndOnlyThere(v, s, k, e);
    }
  }

  lemma BlockHeader(v: string, s: nat, he: nat)
    requires s <= he <= |v| && he == LineValueEnd(v, s) && Indicator(v[s..he])
    ensures s < LineBreak(v, s) && !SecondHalf(v, LineBreak(v, s))
    ensures LineBreak(v, s) < |v| ==> NextLine(v, LineBreak(v, s)) != LineBreak(v, s)
  {
    hide CommentStart, TrimBack, Indicator;
    IndicatorNotEmpty(v[s..he]);
  }

  lemma IndicatorNotEmpty(t: string)
    requires Indicator(t)
    ensures t != ""
  {
  }

  lemma HeaderRuns(v: string, s: nat, l: nat, column: nat, e: nat)
    requires s < l < |v| && IsNewline(v[l]) && !SecondHalf(v, l)
    ensures BlockLines(v, NextLine(v, l), l, column) == e <==> RunsTo(v, l, column, e)
  {
    hide BlockLines, RunsTo;
    LinesRunTo(v, NextLine(v, l), l, column);
    if RunsTo(v, l, column, e) { LinesEndOnlyThere(v, NextLine(v, l), l, column, e); }
  }

  lemma BlockEndOnlyThere(v: string, s: nat, k: nat, e: nat)
    requires s <= |v| && k <= |v| && BlockEndsAt(v, s, k, e)
    ensures BlockEnd(v, s, k) == Some(e)
  {
    hide LineValueEnd, BlockLines, RunsTo, LineBegin, IsBlockIndicator, Indicator, NextLine;
    var l: nat, c: nat, he: nat, column: nat :| 
      && LineValueEndsAt(v, s, l, c, he) && Indicator(v[s..he]) && ColumnIs(v, k, column)
      && if l == |v| then e == |v| else RunsTo(v, l, column, e);
    LineValueEndExactly(v, s, he);
    LineEndIs(v, s, l);
    IndicatorExactly(v[s..he]);
    BlockHeader(v, s, he);
    ColumnExactly(v, k, column);
    if l < |v| { HeaderRuns(v, s, l, column, e); } else { NextLineAtEnd(v); }
  }

  /** No character is left outside: on lines that all are empty or deeper, each lies before the end. */
  lemma BlockHoldsItsLines(v: string, l: nat, column: nat, e: nat, q: nat, k: nat)
    requires RunsTo(v, l, column, e) && l < q <= k < |v| && StartsLine(v, q)
    requires forall p :: l < p <= q && StartsLine(v, p) ==> EmptyLine(v, p) || Deeper(v, p, column)
    requires forall i :: q <= i <= k ==> !Break(v[i])
    ensures k < e
  {
    hide EmptyLine, Deeper, Outdented, StartsLine;
    if e <= k {
      var n: nat :| LineBehind(v, e, n) && Outdented(v, n, column);
      NextLineIs(v, e);
      assert n == NextLine(v, e) && n <= q;
      LineKinds(v, n, column);
    }
  }
}
