/**
 A second scan of scanned text changes nothing. The second scan is followed step by
 step beside the first: at corresponding indexes both stand in the same stage, and where
 the first replaced a value the second finds a value that is redacted already.
*/
module RedactedValues {
  import opened Options
  import opened Redaction

  // ---- The ends of runs, recognised from outside ----

  lemma {:induction false} KeyEndIs(v: string, i: nat, r: nat)
    requires i <= r <= |v| && (forall k :: i <= k < r ==> IsKeyCharacter(v[k])) && (r < |v| ==> !IsKeyCharacter(v[r]))
    ensures KeyEnd(v, i) == r
    decreases r - i
  {
    if i < r {
      KeyEndIs(v, i + 1, r);
    }
  }

  lemma {:induction false} BlankEndIs(v: string, i: nat, r: nat)
    requires i <= r <= |v| && (forall k :: i <= k < r ==> IsBlank(v[k])) && (r < |v| ==> !IsBlank(v[r]))
    ensures BlankEnd(v, i) == r
    decreases r - i
  {
    if i < r {
      BlankEndIs(v, i + 1, r);
    }
  }

  // ---- What the scanner is sure to copy ----

  /** Up to here the move copies the text: to the next index, or to the value it replaces. */
  function Copied(m: Move): nat {
    match m case Copy(next, _) => next case Replace(s, _, _) => s
  }

  /** The output from index `i` on starts with the text up to `n`, and goes on with its next character. */
  ghost predicate KeepsTo(v: string, i: nat, stage: Stage, n: nat)
    requires i <= n <= |v|
  {
    var out := Scan(v, i, stage);
    && n - i <= |out| && out[..n - i] == v[i..n]
    && (n == |v| ==> |out| == n - i)
    && (n < |v| ==> n - i < |out| && out[n - i] == v[n])
  }

  /** The output starts with the character at the index. */
  lemma FirstKept(v: string, i: nat, stage: Stage)
    requires i <= |v|
    ensures KeepsTo(v, i, stage, i)
  {
    if i < |v| {
      var m := Decide(v, i, stage);
      assert v[i..Copied(m)][0] == v[i];
    }
  }

  /** Where the output is `head` and then `rest`, the parts kept join up. */
  lemma Joined(v: string, i: nat, n: nat, m: nat, head: string, rest: string)
    requires i <= n <= m <= |v| && |head| == n - i && head == v[i..n] && m - n <= |rest| && rest[..m - n] == v[n..m]
    ensures (head + rest)[..m - i] == v[i..m]
    ensures m - n < |rest| ==> (head + rest)[m - i] == rest[m - n]
  {
    assert (head + rest)[..m - i] == head + rest[..m - n];
    assert v[i..m] == v[i..n] + v[n..m];
  }

  /** What the rest of the scan keeps is kept behind a copy. */
  lemma KeptBehindCopy(v: string, i: nat, stage: Stage, next: nat, after: Stage, n: nat)
    requires i < next <= n <= |v| && Decide(v, i, stage) == Copy(next, after) && KeepsTo(v, next, after, n)
    ensures KeepsTo(v, i, stage, n)
  {
    hide Decide;
    Joined(v, i, next, n, v[i..next], Scan(v, next, after));
  }

  lemma KeptInside(v: string, i: nat, p: nat, n: nat, rest: string)
    requires i <= n < p <= |v|
    ensures (v[i..p] + rest)[..n - i] == v[i..n] && (v[i..p] + rest)[n - i] == v[n]
  {
  }

  /** Everything strictly before what a move copies is kept, and so is the boundary of a copy. */
  lemma MoveKept(v: string, i: nat, stage: Stage, n: nat)
    requires i < |v| && i <= n <= Copied(Decide(v, i, stage))
    requires n < Copied(Decide(v, i, stage)) || Decide(v, i, stage).Copy?
    ensures KeepsTo(v, i, stage, n)
  {
    hide Decide;
    match Decide(v, i, stage) {
      case Copy(next, after) =>
        if n == next {
          FirstKept(v, next, after);
          KeptBehindCopy(v, i, stage, next, after, n);
        } else {
          KeptInside(v, i, next, n, Scan(v, next, after));
        }
      case Replace(s, e, text) =>
        assert v[i..s] + text + Scan(v, e, Content) == v[i..s] + (text + Scan(v, e, Content));
        KeptInside(v, i, s, n, text + Scan(v, e, Content));
    }
  }

  /** A run of key characters is kept, with the character after it. */
  lemma KeyRunKept(v: string, i: nat)
    requires 0 < i < |v| && IsKeyStart(v[i]) && !IsKeyCharacter(v[i - 1])
    ensures KeepsTo(v, i, Content, KeyEnd(v, i + 1))
  {
    hide IsSecretKey, KeyEnd, Scan, ValueMove, BlankEnd;
    MoveKept(v, i, Content, KeyEnd(v, i + 1));
  }

  /** A run of blanks is kept, with the character after it. */
  lemma {:induction false} BlankRunKept(v: string, i: nat, stage: Stage)
    requires i <= |v|
    ensures KeepsTo(v, i, stage, BlankEnd(v, i))
    decreases |v| - i
  {
    hide Scan, ReadKey, SecretMove, KeepsTo;
    if i < |v| && IsBlank(v[i]) {
      BlankRunKept(v, i + 1, stage);
      KeptBehindCopy(v, i, stage, i + 1, stage, BlankEnd(v, i));
    } else {
      FirstKept(v, i, stage);
    }
  }

  // ---- Values that are redacted already ----

  lemma {:induction false} QuotedPlain(w: string, i: nat, e: nat, quote: char)
    requires i <= e <= |w| && IsQuote(quote)
    requires forall k :: i <= k < e ==> w[k] != quote && w[k] != '\\'
    ensures QuotedEnd(w, i, quote) == QuotedEnd(w, e, quote)
    decreases e - i
  {
    if i < e {
      QuotedPlain(w, i + 1, e, quote);
    }
  }

  /** A quoted value that is empty or redacted ends at its quote. */
  lemma QuotedSettled(w: string, s: nat, body: string)
    requires s < |w| && IsQuote(w[s]) && (body == "" || body == REDACTED)
    requires StartsAt(w, s, [w[s]] + body + [w[s]])
    requires w[s] == '\'' && s + |body| + 2 < |w| ==> w[s + |body| + 2] != '\''
    ensures QuotedEnd(w, s + 1, w[s]) == Some(s + |body| + 2)
    ensures w[s + 1..s + |body| + 1] == body
  {
    var whole := [w[s]] + body + [w[s]];
    var e := s + 1 + |body|;
    assert w[s..s + |whole|] == whole;
    assert forall k :: s + 1 <= k < e ==> w[k] == whole[k - s] == body[k - s - 1];
    assert w[e] == whole[|body| + 1] == w[s];
    QuotedPlain(w, s + 1, e, w[s]);
  }

  /** A quote that opens an empty or redacted rest is never closed. */
  lemma OpenSettled(w: string, s: nat, body: string)
    requires s < |w| && IsQuote(w[s]) && (body == "" || body == REDACTED) && w[s + 1..] == body
    ensures QuotedEnd(w, s + 1, w[s]).None?
  {
    assert forall k :: s + 1 <= k < |w| ==> w[k] == body[k - s - 1];
    QuotedPlain(w, s + 1, |w|, w[s]);
  }

  /** What follows the end of a line value: blanks, then a break, a comment or the end. */
  predicate LineTail(v: string, e: nat)
    requires e <= |v|
  {
    var k := BlankEnd(v, e);
    k == |v| || IsNewline(v[k]) || (v[k] == '#' && k > e)
  }

  lemma {:induction false} LineBreakPast(w: string, i: nat, e: nat)
    requires i <= e <= |w| && forall k :: i <= k < e ==> !IsNewline(w[k])
    ensures LineBreak(w, i) == LineBreak(w, e)
    decreases e - i
  {
    if i < e { LineBreakPast(w, i + 1, e); }
  }

  lemma {:induction false} CommentPast(w: string, low: nat, i: nat, e: nat, end: nat)
    requires low <= i <= e <= end <= |w| && forall k :: i <= k < e ==> w[k] != '#'
    ensures CommentStart(w, low, i, end) == CommentStart(w, low, e, end)
    decreases e - i
  {
    if i < e { CommentPast(w, low, i + 1, e, end); }
  }

  lemma {:induction false} TrimTo(w: string, low: nat, r: nat, e: nat)
    requires low < r <= e <= |w| && !IsBlank(w[r - 1]) && forall k :: r <= k < e ==> IsBlank(w[k])
    ensures TrimBack(w, low, e) == r
    decreases e
  {
    if r < e { TrimTo(w, low, r, e - 1); }
  }

  lemma LineSettled(w: string, s: nat)
    requires StartsAt(w, s, REDACTED) && LineTail(w, s + |REDACTED|)
    ensures LineValueEnd(w, s) == s + |REDACTED|
  {
    var e := s + |REDACTED|;
    var k := BlankEnd(w, e);
    assert forall x :: s <= x < e ==> w[x] == REDACTED[x - s];
    LineBreakPast(w, s, k);
    CommentPast(w, s, s, k, LineBreak(w, s));
    assert CommentStart(w, s, k, LineBreak(w, s)) == k;
    TrimTo(w, s, e, k);
  }

  /** A value that starts with a character of its own ends past it, with nothing but a tail behind. */
  lemma LineEndTail(v: string, s: nat)
    requires s < |v| && !IsBlank(v[s]) && !IsNewline(v[s])
    ensures s < LineValueEnd(v, s) && LineTail(v, LineValueEnd(v, s))
  {
    var e := LineValueEnd(v, s);
    var c := CommentStart(v, s, s, LineBreak(v, s));
    BlankEndIs(v, e, c);
  }

  lemma LineEndAtNewline(v: string, s: nat)
    requires s < |v| && IsNewline(v[s])
    ensures LineValueEnd(v, s) == s
  {
  }

  /** Whether the line rule decides where the value ends. */
  predicate LineRule(name: string, delimiter: char, stage: Stage) {
    !stage.Content? && (delimiter == ':' || (delimiter == '=' && name == Upper(name)))
  }

  lemma RedactedIsNoIndicator(w: string, s: nat, e: nat)
    requires s <= e <= |w| && (e > s ==> w[s] == '[')
    ensures !IsBlockIndicator(w[s..e])
  {
  }

  /** A redacted plain value ends right behind it. */
  lemma PlainSettled(w: string, keyStart: nat, s: nat, name: string, delimiter: char, stage: Stage)
    requires keyStart <= s && StartsAt(w, s, REDACTED)
    requires LineRule(name, delimiter, stage) ==> LineTail(w, s + |REDACTED|)
    ensures PlainValueEnd(w, keyStart, s, name, delimiter, stage) == s + |REDACTED|
  {
    assert w[s] == w[s..s + |REDACTED|][0];
    if LineRule(name, delimiter, stage) {
      LineSettled(w, s);
      RedactedIsNoIndicator(w, s, s + |REDACTED|);
    }
  }

  /** What follows the end of a flow or inline value. */
  predicate PlainTail(v: string, e: nat)
    requires e <= |v|
  {
    e < |v| ==> !IsKeyStart(v[e])
  }

  lemma FlowEndTail(v: string, s: nat)
    requires s < |v| && !IsBlank(v[s]) && !StartsAt(v, s, REDACTED)
    ensures PlainTail(v, FlowValueEnd(v, s))
    ensures FlowValueEnd(v, s) == s <==> EndsFlow(v[s])
  {
    assert FlowStop(v, s, s, [], None) == s <==> EndsFlow(v[s]);
  }

  /** Where a plain value that is not redacted yet ends, seen from the text it stands in. */
  lemma PlainEndTail(v: string, keyStart: nat, s: nat, name: string, delimiter: char, stage: Stage)
    requires keyStart <= s < |v| && !IsBlank(v[s]) && !IsQuote(v[s])
    ensures var e := PlainValueEnd(v, keyStart, s, name, delimiter, stage);
            && (e > s && LineRule(name, delimiter, stage) ==> LineTail(v, e))
            && (e > s && v[s..e] != REDACTED ==> PlainTail(v, e))
            && (e > s && v[s..e] == REDACTED ==> StartsAt(v, s, REDACTED))
  {
    hide LineValueEnd;
    var e := PlainValueEnd(v, keyStart, s, name, delimiter, stage);
    if LineRule(name, delimiter, stage) {
      if IsNewline(v[s]) {
        LineEndAtNewline(v, s);
      } else {
        LineEndTail(v, s);
      }
      if e > s {
        if delimiter == ':' && BlockEnd(v, s, keyStart).Some? {
          BreakTail(v, e);
        } else {
          assert e == LineValueEnd(v, s);
        }
        assert LineTail(v, e);
        LineTailIsPlain(v, e);
      }
    } else if !StartsAt(v, s, REDACTED) {
      FlowEndTail(v, s);
    }
    if e > s && v[s..e] == REDACTED { assert StartsAt(v, s, REDACTED); }
  }

  lemma BreakTail(v: string, e: nat)
    requires e <= |v| && (e < |v| ==> IsNewline(v[e]))
    ensures LineTail(v, e)
  {
  }

  lemma LineTailIsPlain(v: string, e: nat)
    requires e <= |v| && LineTail(v, e)
    ensures PlainTail(v, e)
  {
  }

  /** An empty plain value is recognised by its first character alone. */
  lemma EmptySettled(v: string, i: nat, w: string, j: nat, s: nat, t: nat, name: string, delimiter: char, stage: Stage)
    requires i <= s < |v| && j <= t < |w| && v[s] == w[t] && !IsBlank(v[s]) && !IsQuote(v[s])
    requires PlainValueEnd(v, i, s, name, delimiter, stage) == s
    ensures PlainValueEnd(w, j, t, name, delimiter, stage) == t
  {
    hide LineValueEnd, FlowValueEnd;
    if LineRule(name, delimiter, stage) {
      if !IsNewline(v[s]) { LineEndTail(v, s); }
      LineEndAtNewline(w, t);
      RedactedIsNoIndicator(w, t, t);
    } else if delimiter == ':' {
      FlowFirst(v, s);
      FlowFirst(w, t);
    } else {
      assert v[s] != '[';
    }
  }

  lemma FlowFirst(v: string, s: nat)
    requires s < |v| && !IsBlank(v[s])
    ensures FlowValueEnd(v, s) == s <==> EndsFlow(v[s])
  {
    if StartsAt(v, s, REDACTED) {
      assert v[s] == v[s..s + |REDACTED|][0] == '[';
    } else {
      FlowEndTail(v, s);
    }
  }

  // ---- The second scan at a value ----

  /** The part of the output that a value contributes, with everything behind it. */
  function ValueOutput(v: string, s: nat, m: Move): string
    requires s < |v| && (m.Copy? ==> s < m.next <= |v|) && (m.Replace? ==> m.valueEnd <= |v|)
  {
    match m
    case Copy(next, stage) => v[s..next] + Scan(v, next, stage)
    case Replace(_, e, text) => text + Scan(v, e, Content)
  }

  /** How long the value is in the output. */
  function OutputWidth(s: nat, m: Move): int {
    match m case Copy(next, _) => next - s case Replace(_, _, text) => |text|
  }

  lemma ClosedRescan(v: string, s: nat, e: nat, body: string, w: string, t: nat)
    requires s < |v| && IsQuote(v[s]) && QuotedEnd(v, s + 1, v[s]) == Some(e) && (body == "" || body == REDACTED)
    requires t < |w| && w[t..] == [v[s]] + body + [v[s]] + Scan(v, e, Content)
    ensures IsQuote(w[t]) && QuotedEnd(w, t + 1, w[t]) == Some(t + |body| + 2)
    ensures w[t + 1..t + |body| + 1] == body
  {
    hide Scan, QuotedEnd;
    var quoted := [v[s]] + body + [v[s]];
    var rest := Scan(v, e, Content);
    FirstKept(v, e, Content);
    assert w[t..][..|quoted|] == quoted;
    assert w[t] == w[t..][0];
    assert StartsAt(w, t, quoted);
    if t + |quoted| < |w| {
      assert w[t + |quoted|] == w[t..][|quoted|] == rest[0];
    }
    QuotedSettled(w, t, body);
  }

  lemma OpenRescan(v: string, s: nat, body: string, w: string, t: nat)
    requires s < |v| && IsQuote(v[s]) && (body == "" || body == REDACTED)
    requires t < |w| && w[t..] == [v[s]] + body
    ensures IsQuote(w[t]) && QuotedEnd(w, t + 1, w[t]).None? && w[t + 1..] == body
  {
    assert w[t] == w[t..][0];
    assert w[t + 1..] == w[t..][1..];
    OpenSettled(w, t, body);
  }

  /** The tail behind a line value stays a tail. */
  lemma TailAgrees(v: string, e: nat, w: string, t: nat)
    requires e <= |v| && t <= |w| && w[t..] == Scan(v, e, Content) && LineTail(v, e)
    ensures LineTail(w, t)
  {
    hide Scan;
    var rest := w[t..];
    var k := BlankEnd(v, e);
    BlankRunKept(v, e, Content);
    forall x | t <= x < t + (k - e) ensures IsBlank(w[x]) {
      assert w[x] == rest[..k - e][x - t] == v[x - t + e];
    }
    if k < |v| {
      assert w[t + (k - e)] == rest[k - e];
    }
    BlankEndIs(w, t, t + (k - e));
  }

  /** A redacted plain value, followed by what the scanner makes of the text behind it. */
  lemma PlainRescan(v: string, e: nat, w: string, j: nat, t: nat, name: string, delimiter: char, stage: Stage)
    requires e <= |v| && j <= t < |w| && w[t..] == REDACTED + Scan(v, e, Content)
    requires LineRule(name, delimiter, stage) ==> LineTail(v, e)
    ensures w[t] == '[' && PlainValueEnd(w, j, t, name, delimiter, stage) == t + |REDACTED|
    ensures w[t..t + |REDACTED|] == REDACTED
  {
    hide Scan, PlainValueEnd, LineTail, LineRule;
    var after := t + |REDACTED|;
    assert w[t..][..|REDACTED|] == REDACTED && w[after..] == w[t..][|REDACTED|..];
    assert w[t] == w[t..][0];
    if LineRule(name, delimiter, stage) {
      TailAgrees(v, e, w, after);
    }
    PlainSettled(w, j, t, name, delimiter, stage);
  }

  /** On a quoted value that is empty or redacted the scanner only moves on. */
  lemma SettledMoves(w: string, j: nat, t: nat, body: string, name: string, delimiter: char, stage: Stage)
    requires j <= t < |w| && IsQuote(w[t]) && (body == "" || body == REDACTED)
    requires match QuotedEnd(w, t + 1, w[t])
             case Some(e) => e == t + |body| + 2 && w[t + 1..e - 1] == body
             case None => w[t + 1..] == body
    ensures ValueMove(w, j, t, name, delimiter, stage)
         == Copy(if QuotedEnd(w, t + 1, w[t]).Some? then t + |body| + 2 else |w|, Content)
  {
    hide QuotedEnd, IsQuote;
  }

  /** What the output holds between the quotes of a closed secret value. */
  function ClosedBody(v: string, s: nat, e: nat): (body: string)
    requires s + 2 <= e <= |v|
  {
    if v[s + 1..e - 1] == "" then "" else REDACTED
  }

  lemma ClosedMove(v: string, i: nat, s: nat, e: nat, name: string, delimiter: char, stage: Stage)
    requires i <= s < |v| && IsQuote(v[s]) && QuotedEnd(v, s + 1, v[s]) == Some(e)
    ensures ValueMove(v, i, s, name, delimiter, stage)
         == if v[s + 1..e - 1] == ClosedBody(v, s, e) then Copy(e, Content)
            else Replace(s, e, [v[s]] + REDACTED + [v[s]])
  {
    hide QuotedEnd, IsQuote, PlainValueEnd;
  }

  lemma ClosedOutput(v: string, i: nat, s: nat, e: nat, name: string, delimiter: char, stage: Stage)
    requires i <= s < |v| && IsQuote(v[s]) && QuotedEnd(v, s + 1, v[s]) == Some(e)
    ensures var m := ValueMove(v, i, s, name, delimiter, stage);
            && ValueOutput(v, s, m) == [v[s]] + ClosedBody(v, s, e) + [v[s]] + Scan(v, e, Content)
            && OutputWidth(s, m) == |ClosedBody(v, s, e)| + 2
  {
    ClosedMove(v, i, s, e, name, delimiter, stage);
    hide Scan, QuotedEnd, IsQuote, ValueMove;
    var body := v[s + 1..e - 1];
    if body == ClosedBody(v, s, e) {
      assert v[s..e] == [v[s]] + body + [v[s]] by { Quoted(v, s, e); }
    } else {
      assert ClosedBody(v, s, e) == REDACTED;
    }
  }

  lemma Quoted(v: string, s: nat, e: nat)
    requires s + 2 <= e <= |v| && v[e - 1] == v[s]
    ensures v[s..e] == [v[s]] + v[s + 1..e - 1] + [v[s]]
  {
  }

  lemma ClosedValueRescan(v: string, i: nat, s: nat, e: nat, name: string, delimiter: char, stage: Stage,
                          w: string, j: nat, t: nat)
    requires i <= s < |v| && j <= t < |w| && IsQuote(v[s]) && QuotedEnd(v, s + 1, v[s]) == Some(e)
    requires w[t..] == ValueOutput(v, s, ValueMove(v, i, s, name, delimiter, stage))
    ensures var m := ValueMove(v, i, s, name, delimiter, stage);
            ValueMove(w, j, t, name, delimiter, stage) == Copy(t + OutputWidth(s, m), Content)
  {
    hide Scan, QuotedEnd, IsQuote, ValueMove, ValueOutput, OutputWidth;
    ClosedOutput(v, i, s, e, name, delimiter, stage);
    ClosedRescan(v, s, e, ClosedBody(v, s, e), w, t);
    SettledMoves(w, j, t, ClosedBody(v, s, e), name, delimiter, stage);
  }

  /** What the output holds behind the quote of an open secret value. */
  function OpenBody(v: string, s: nat): (body: string)
    requires s < |v|
  {
    if v[s + 1..] == "" then "" else REDACTED
  }

  lemma OpenOutput(v: string, i: nat, s: nat, name: string, delimiter: char, stage: Stage)
    requires i <= s < |v| && IsQuote(v[s]) && QuotedEnd(v, s + 1, v[s]).None?
    ensures var m := ValueMove(v, i, s, name, delimiter, stage);
            && ValueOutput(v, s, m) == [v[s]] + OpenBody(v, s)
            && OutputWidth(s, m) == |OpenBody(v, s)| + 1
  {
    hide Scan, QuotedEnd, IsQuote, PlainValueEnd;
    NothingLeft(v);
    assert v[s..|v|] == [v[s]] + v[s + 1..];
  }

  lemma OpenValueRescan(v: string, i: nat, s: nat, name: string, delimiter: char, stage: Stage,
                        w: string, j: nat, t: nat)
    requires i <= s < |v| && j <= t < |w| && IsQuote(v[s]) && QuotedEnd(v, s + 1, v[s]).None?
    requires w[t..] == ValueOutput(v, s, ValueMove(v, i, s, name, delimiter, stage))
    ensures var m := ValueMove(v, i, s, name, delimiter, stage);
            ValueMove(w, j, t, name, delimiter, stage) == Copy(t + OutputWidth(s, m), Content)
  {
    hide Scan, QuotedEnd, IsQuote, ValueMove, ValueOutput, OutputWidth;
    OpenOutput(v, i, s, name, delimiter, stage);
    assert |w| - t == |w[t..]|;
    OpenRescan(v, s, OpenBody(v, s), w, t);
    SettledMoves(w, j, t, OpenBody(v, s), name, delimiter, stage);
  }

  lemma PlainValueRescan(v: string, i: nat, s: nat, name: string, delimiter: char, stage: Stage, w: string, j: nat, t: nat)
    requires i <= s < |v| && j <= t < |w| && !IsBlank(v[s]) && !IsQuote(v[s])
    requires w[t..] == ValueOutput(v, s, ValueMove(v, i, s, name, delimiter, stage))
    ensures var m := ValueMove(v, i, s, name, delimiter, stage);
            ValueMove(w, j, t, name, delimiter, stage) == Copy(t + OutputWidth(s, m), Content)
  {
    hide Scan, QuotedEnd, PlainValueEnd, IsBlank, LineTail, LineRule;
    var e := PlainValueEnd(v, i, s, name, delimiter, stage);
    if e == s {
      assert w[t] == w[t..][0] == v[s..s + 1][0];
      EmptySettled(v, i, w, j, s, t, name, delimiter, stage);
    } else {
      PlainEndTail(v, i, s, name, delimiter, stage);
      assert |v[s..e]| == e - s;
      PlainRescan(v, e, w, j, t, name, delimiter, stage);
    }
  }

  /** Where the first scan found a secret value, the second finds a redacted or empty one, and moves past it. */
  lemma ValueRescan(v: string, i: nat, s: nat, name: string, delimiter: char, stage: Stage, w: string, j: nat, t: nat)
    requires i <= s < |v| && j <= t < |w| && !IsBlank(v[s])
    requires w[t..] == ValueOutput(v, s, ValueMove(v, i, s, name, delimiter, stage))
    ensures var m := ValueMove(v, i, s, name, delimiter, stage);
            ValueMove(w, j, t, name, delimiter, stage) == Copy(t + OutputWidth(s, m), Content)
  {
    hide ValueMove, ValueOutput, OutputWidth;
    if IsQuote(v[s]) {
      match QuotedEnd(v, s + 1, v[s]) {
        case Some(e) => ClosedValueRescan(v, i, s, e, name, delimiter, stage, w, j, t);
        case None => OpenValueRescan(v, i, s, name, delimiter, stage, w, j, t);
      }
    } else {
      PlainValueRescan(v, i, s, name, delimiter, stage, w, j, t);
    }
  }

  lemma NothingLeft(v: string)
    ensures Scan(v, |v|, Content) == ""
  {
  }
}
