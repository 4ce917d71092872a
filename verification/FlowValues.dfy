/**
 Where flow values end, said of the text alone: the value is a row of pieces, each a character,
 a quoted text or a comment, and it ends where a delimiter stands outside all brackets.
*/
module FlowValues {
  import opened Options
  import opened Redaction
  import opened ValueEnds
  import opened BlockScalars

  predicate Opening(c: char) { c == '[' || c == '{' }

  predicate Closing(c: char) { c == ']' || c == '}' }

  /** How many brackets are open behind a piece that starts with `c`. */
  function Nesting(depth: nat, c: char): nat {
    if Opening(c) then depth + 1 else if Closing(c) && depth > 0 then depth - 1 else depth
  }

  /** The comment at `i` goes on to the start of the next line. */
  ghost predicate CommentTo(v: string, i: nat, j: nat) {
    exists l: nat :: LineEndsAt(v, i, l) && if l == |v| then j == l else LineBehind(v, l, j)
  }

  /** What ends a value when no bracket is open. */
  predicate FlowStopper(v: string, s: nat, i: nat)
    requires i < |v|
  {
    Closing(v[i]) || v[i] == ',' || Break(v[i]) || CommentAt(v, s, i)
  }

  /** A quoted text starts at `i` and ends before `j`. */
  ghost predicate QuotedTo(v: string, i: nat, j: nat) {
    i < |v| && (v[i] == '"' || v[i] == '\'') && Closes(v, i + 1, v[i], j)
  }

  /** With `depth` brackets open, the piece at `i` goes up to `j`. */
  ghost predicate PieceAt(v: string, s: nat, i: nat, depth: nat, j: nat) {
    && i < j <= |v|
    && if v[i] == '"' || v[i] == '\'' then QuotedTo(v, i, j)
       else if CommentAt(v, s, i) then depth > 0 && CommentTo(v, i, j)
       else j == i + 1 && (FlowStopper(v, s, i) ==> depth > 0)
  }

  /** No piece starts at `i`, and the value goes up to `e`: from a quote that is never closed, to the end. */
  ghost predicate FlowEnd(v: string, s: nat, i: nat, depth: nat, e: nat) {
    || (e == i && (i == |v| || (i < |v| && depth == 0 && FlowStopper(v, s, i))))
    || (e == |v| && i < |v| && (v[i] == '"' || v[i] == '\'') && forall j: nat :: !QuotedTo(v, i, j))
  }

  /** From `i` on the pieces end at the indices of `cuts`, and the value at `e`. */
  ghost predicate FlowRow(v: string, s: nat, i: nat, depth: nat, cuts: seq<nat>, e: nat)
    decreases |cuts|
  {
    if cuts == [] then FlowEnd(v, s, i, depth, e)
    else PieceAt(v, s, i, depth, cuts[0]) && FlowRow(v, s, cuts[0], Nesting(depth, v[i]), cuts[1..], e)
  }

  /** Inside quotes the flow scan looks for the closing quote alone. */
  lemma {:induction false} FlowInQuote(v: string, s: nat, i: nat, delimiters: seq<char>, quote: char)
    requires s <= i <= |v| && IsQuote(quote)
    ensures FlowStop(v, s, i, delimiters, Some(quote))
            == match QuotedEnd(v, i, quote) case None => |v| case Some(e) => FlowStop(v, s, e, delimiters, None)
    decreases |v| - i
  {
    if i < |v| {
      if v[i] == '\\' && quote == '"' {
        FlowInQuote(v, s, if i + 2 <= |v| then i + 2 else |v|, delimiters, quote);
      } else if v[i] == quote {
        if quote == '\'' && i + 1 < |v| && v[i + 1] == '\'' { FlowInQuote(v, s, i + 2, delimiters, quote); }
      } else {
        FlowInQuote(v, s, i + 1, delimiters, quote);
      }
    }
  }

  /** The index behind the piece at `i`, or None when the value ends there. */
  ghost function Piece(v: string, s: nat, i: nat, depth: nat): Option<nat>
    requires i < |v|
  {
    if IsQuote(v[i]) then QuotedEnd(v, i + 1, v[i])
    else if FlowStopper(v, s, i) && depth == 0 then None
    else if CommentAt(v, s, i) then Some(CommentEnd(v, i))
    else Some(i + 1)
  }

  lemma FlowStep(v: string, s: nat, i: nat, delimiters: seq<char>)
    requires s <= i < |v|
    ensures Piece(v, s, i, |delimiters|).None? ==> FlowStop(v, s, i, delimiters, None) == if IsQuote(v[i]) then |v| else i
    ensures Piece(v, s, i, |delimiters|).Some? ==>
              exists rest: seq<char> ::
                && |rest| == Nesting(|delimiters|, v[i])
                && FlowStop(v, s, i, delimiters, None) == FlowStop(v, s, Piece(v, s, i, |delimiters|).value, rest, None)
  {
    var r := FlowStop(v, s, i, delimiters, None);
    var next := Piece(v, s, i, |delimiters|);
    if IsQuote(v[i]) {
      FlowInQuote(v, s, i + 1, delimiters, v[i]);
      if next.Some? {
        assert r == FlowStop(v, s, next.value, delimiters, None);
      }
    } else if next.Some? {
      var rest := if Opening(v[i]) then delimiters + [v[i]]
                  else if Closing(v[i]) then delimiters[..|delimiters| - 1]
                  else delimiters;
      assert r == FlowStop(v, s, next.value, rest, None);
    }
  }

  lemma CommentEndIs(v: string, i: nat, j: nat)
    requires i < |v| && v[i] == '#'
    ensures CommentEnd(v, i) == j <==> CommentTo(v, i, j)
  {
    hide LineBreak;
    var l := LineBreak(v, i);
    assert LineEndsAt(v, i, l);
    if CommentTo(v, i, j) {
      var m: nat :| LineEndsAt(v, i, m) && if m == |v| then j == m else LineBehind(v, m, j);
      LineEndIs(v, i, m);
    }
  }

  lemma PieceExactly(v: string, s: nat, i: nat, depth: nat, j: nat)
    requires i < |v|
    ensures Piece(v, s, i, depth) == Some(j) <==> PieceAt(v, s, i, depth, j)
    ensures Piece(v, s, i, depth).None? && j == (if IsQuote(v[i]) then |v| else i) <==> FlowEnd(v, s, i, depth, j)
  {
    hide QuotedEnd, Closes, CommentTo, CommentEnd;
    if IsQuote(v[i]) {
      forall e: nat ensures QuotedEnd(v, i + 1, v[i]) == Some(e) <==> QuotedTo(v, i, e) {
        QuotedEndExactly(v, i + 1, v[i], e);
      }
      assert QuotedEnd(v, i + 1, v[i]).Some? ==> QuotedTo(v, i, QuotedEnd(v, i + 1, v[i]).value);
    } else if CommentAt(v, s, i) {
      CommentEndIs(v, i, j);
    }
  }

  lemma {:induction false} FlowRead(v: string, s: nat, i: nat, delimiters: seq<char>) returns (cuts: seq<nat>)
    requires s <= i <= |v|
    ensures FlowRow(v, s, i, |delimiters|, cuts, FlowStop(v, s, i, delimiters, None))
    decreases |v| - i
  {
    hide FlowStop, Piece, PieceAt, FlowEnd;
    cuts := [];
    if i == |v| {
      FlowAtEnd(v, s, delimiters);
    } else {
      FlowStep(v, s, i, delimiters);
      var r, next := FlowStop(v, s, i, delimiters, None), Piece(v, s, i, |delimiters|);
      if next.None? {
        PieceExactly(v, s, i, |delimiters|, r);
      } else {
        PieceExactly(v, s, i, |delimiters|, next.value);
        PieceBehind(v, s, i, |delimiters|, next.value);
        var rest: seq<char> :| |rest| == Nesting(|delimiters|, v[i]) && r == FlowStop(v, s, next.value, rest, None);
        var more := FlowRead(v, s, next.value, rest);
        cuts := [next.value] + more;
        assert cuts[1..] == more;
      }
    }
  }

  lemma PieceBehind(v: string, s: nat, i: nat, depth: nat, j: nat)
    requires PieceAt(v, s, i, depth, j)
    ensures i < j <= |v|
  {
  }

  lemma FlowAtEnd(v: string, s: nat, delimiters: seq<char>)
    requires s <= |v|
    ensures FlowStop(v, s, |v|, delimiters, None) == |v|
    ensures FlowEnd(v, s, |v|, |delimiters|, |v|)
    ensures forall e: nat :: FlowEnd(v, s, |v|, |delimiters|, e) ==> e == |v|
  {
  }

  lemma {:induction false} FlowOnlyThere(v: string, s: nat, i: nat, delimiters: seq<char>, cuts: seq<nat>, e: nat)
    requires s <= i <= |v| && FlowRow(v, s, i, |delimiters|, cuts, e)
    ensures FlowStop(v, s, i, delimiters, None) == e
    decreases |cuts|
  {
    hide FlowStop, Piece, PieceAt, FlowEnd;
    if cuts == [] {
      if i == |v| {
        FlowAtEnd(v, s, delimiters);
      } else {
        PieceExactly(v, s, i, |delimiters|, e);
        FlowStep(v, s, i, delimiters);
      }
    } else {
      PieceBehind(v, s, i, |delimiters|, cuts[0]);
      PieceExactly(v, s, i, |delimiters|, cuts[0]);
      FlowStep(v, s, i, delimiters);
      var rest: seq<char> :| && |rest| == Nesting(|delimiters|, v[i])
                             && FlowStop(v, s, i, delimiters, None) == FlowStop(v, s, cuts[0], rest, None);
      FlowOnlyThere(v, s, cuts[0], rest, cuts[1..], e);
    }
  }

  /** The value at `s` ends at `e`: behind its pieces, without the blanks before a delimiter. */
  ghost predicate FlowEndsAt(v: string, s: nat, e: nat) {
    exists cuts: seq<nat>, r: nat ::
      && FlowRow(v, s, s, 0, cuts, r)
      && s <= e <= r <= |v| && (forall k :: e <= k < r ==> Blank(v[k])) && (s < e ==> !Blank(v[e - 1]))
  }

  /** A flow value ends where its pieces do; a redacted one at its own end. */
  lemma FlowValueEndExactly(v: string, s: nat, e: nat)
    requires s <= |v|
    ensures FlowValueEnd(v, s) == e <==> if StartsAt(v, s, "[REDACTED]") then e == s + 10 else FlowEndsAt(v, s, e)
  {
    hide FlowStop, FlowRow;
    var r := FlowStop(v, s, s, [], None);
    var cuts := FlowRead(v, s, s, []);
    if FlowEndsAt(v, s, e) {
      var cs: seq<nat>, q: nat :|
        && FlowRow(v, s, s, 0, cs, q)
        && s <= e <= q <= |v| && (forall k :: e <= k < q ==> Blank(v[k])) && (s < e ==> !Blank(v[e - 1]));
      FlowOnlyThere(v, s, s, [], cs, q);
      TrimIs(v, s, r, e);
    }
    assert TrimBack(v, s, r) == e ==> FlowRow(v, s, s, 0, cuts, r);
  }
}
