/**
 What the stages of the scanner mean: the scan is at the head of a line exactly where nothing
 but blanks, one list dash and the word export stand before it on the line.
*/
module LineHeads {
  import opened Options
  import opened Redaction
  import opened RedactionSpans
  import opened ValueEnds
  import opened BlockScalars
  import opened FlowValues
  import opened SecretNames
  import opened SecretTexts

  // ---- Heads of lines ----

  predicate Blanks(v: string, a: nat, b: nat) { a <= b <= |v| && forall k :: a <= k < b ==> Blank(v[k]) }

  predicate NoBreak(v: string, a: nat, b: nat) { b <= |v| && forall k :: a <= k < b ==> !Break(v[k]) }

  /** Only blanks stand before `k` on its line. */
  ghost predicate BehindBlanks(v: string, k: nat) {
    exists q: nat :: Blanks(v, q, k) && (q > 0 ==> Break(v[q - 1]))
  }

  /** Only blanks and one dash among them. */
  ghost predicate BehindDash(v: string, k: nat) {
    exists d: nat :: Blanks(v, d + 1, k) && v[d] == '-' && BehindBlanks(v, d)
  }

  /** The word export stands at `x`, with a blank behind it. */
  predicate ExportAt(v: string, x: nat) { x + 6 < |v| && v[x..x + 6] == "export" && Blank(v[x + 6]) }

  /** Behind that, the word export once or more, each with blanks behind it. */
  ghost predicate BehindExport(v: string, k: nat)
    decreases k
  {
    exists x: nat :: x < k && ExportAt(v, x) && Blanks(v, x + 6, k)
                     && (BehindBlanks(v, x) || BehindDash(v, x) || BehindExport(v, x))
  }

  ghost predicate Head(v: string, k: nat) { BehindBlanks(v, k) || BehindDash(v, k) || BehindExport(v, k) }

  /** The scan arrives at a secret key whose value would start at `b`. */
  ghost predicate SecretFieldAt(v: string, i: nat, at: Stage, key: Key, d: nat, b: nat) {
    Arrives(v, 0, LineStart, i, at) && KeyAt(v, i, key) && HoldsSecretWord(key.name) && ValueStartsAt(v, key, d, b)
  }

  /** The break before this line stands in the place of a secret value: the value is empty. */
  ghost predicate BehindEmptyValue(v: string, k: nat) {
    exists i: nat, at: Stage, key: Key, d: nat, b: nat ::
      SecretFieldAt(v, i, at, key, d, b) && b < k && Break(v[b]) && NoBreak(v, b + 1, k)
  }

  /** No key that follows on this line is at its head, or the line is behind an empty value. */
  ghost predicate PastHead(v: string, k: nat) {
    forall j: nat :: k <= j < |v| && NoBreak(v, k, j + 1) && !Blank(v[j]) ==> !Head(v, j) || BehindEmptyValue(v, j)
  }

  /** What the stage says of the place. */
  ghost predicate Fits(v: string, k: nat, stage: Stage) {
    match stage
    case LineStart => BehindBlanks(v, k)
    case Dash => BehindDash(v, k)
    case Export => BehindExport(v, k)
    case Content => PastHead(v, k)
  }

  // ---- What stands in a head ----

  /** Export stands at `x` in a head, and `i` is in the word. */
  ghost predicate InExport(v: string, i: nat, x: nat) { x <= i < x + 6 && ExportAt(v, x) && Head(v, x) }

  /** A character in a head is a blank, the dash, or of the word export. */
  lemma {:induction false} InHead(v: string, i: nat, k: nat)
    requires i < k <= |v| && Head(v, k) && NoBreak(v, i, k) && !Blank(v[i])
    ensures (v[i] == '-' && BehindBlanks(v, i)) || exists x: nat :: InExport(v, i, x)
    decreases k
  {
    if BehindExport(v, k) {
      hide BehindBlanks, BehindDash;
      var x: nat :| x < k && ExportAt(v, x) && Blanks(v, x + 6, k)
                    && (BehindBlanks(v, x) || BehindDash(v, x) || BehindExport(v, x));
      if x <= i {
        assert InExport(v, i, x);
      } else {
        InHead(v, i, x);
      }
    } else {
      InShortHead(v, i, k);
    }
  }

  lemma InShortHead(v: string, i: nat, k: nat)
    requires i < k <= |v| && (BehindBlanks(v, k) || BehindDash(v, k)) && NoBreak(v, i, k) && !Blank(v[i])
    ensures v[i] == '-' && BehindBlanks(v, i)
  {
    assert !BehindBlanks(v, k);
    var d: nat :| Blanks(v, d + 1, k) && v[d] == '-' && BehindBlanks(v, d);
    var q: nat :| Blanks(v, q, d) && (q > 0 ==> Break(v[q - 1]));
    assert i >= q;
    assert i == d;
  }

  lemma ExportLetters(v: string, x: nat, i: nat)
    requires ExportAt(v, x) && x <= i < x + 6
    ensures v[i] in {'e', 'x', 'p', 'o', 'r', 't'}
  {
    assert v[i] == v[x..x + 6][i - x];
  }

  /** No head goes past such a character. */
  lemma MarkEndsHead(v: string, i: nat, k: nat)
    requires i < k <= |v| && NoBreak(v, i, k) && (IsQuote(v[i]) || Opening(v[i]) || Closing(v[i]))
    ensures !Head(v, k)
  {
    if Head(v, k) {
      InHead(v, i, k);
      var x: nat :| InExport(v, i, x);
      ExportLetters(v, x, i);
    }
  }

  /** What goes before a head place: a blank, a break or the dash. */
  lemma BeforeHead(v: string, i: nat)
    requires 0 < i < |v| && Head(v, i) && !Blank(v[i])
    ensures Blank(v[i - 1]) || Break(v[i - 1]) || v[i - 1] == '-'
  {
  }

  /** Behind a dash, or behind export, more than blanks stand before the place. */
  lemma NotOnlyBlanks(v: string, i: nat)
    requires i < |v| && (BehindDash(v, i) || BehindExport(v, i))
    ensures !BehindBlanks(v, i)
  {
    if BehindDash(v, i) {
      var d: nat :| Blanks(v, d + 1, i) && v[d] == '-' && BehindBlanks(v, d);
      SolidBefore(v, d, i);
    } else {
      hide BehindBlanks, BehindDash;
      var x: nat :| x < i && ExportAt(v, x) && Blanks(v, x + 6, i);
      ExportLetters(v, x, x + 5);
      SolidBefore(v, x + 5, i);
    }
  }

  /** Behind a character that is neither blank nor break, more than blanks stand before a place. */
  lemma SolidBefore(v: string, j: nat, i: nat)
    requires j < i <= |v| && Blanks(v, j + 1, i) && !Blank(v[j]) && !Break(v[j])
    ensures !BehindBlanks(v, i)
  {
  }

  // ---- The stage follows the line ----

  /** Where the scan reads a key or a character that is not part of a head, the head is over. */
  lemma LeavesHead(v: string, i: nat, stage: Stage)
    requires i < |v| && Fits(v, i, stage) && !Blank(v[i]) && !Break(v[i])
    requires !(v[i] == '-' && stage == LineStart)
    requires ReadKey(v, i).Some? ==> !IsExport(v, ReadKey(v, i).value, stage)
    ensures PastHead(v, i + 1)
  {
    hide ReadKey, IsExport, BehindBlanks, BehindDash, BehindExport, BehindEmptyValue;
    forall k: nat | i + 1 <= k < |v| && NoBreak(v, i + 1, k + 1) && !Blank(v[k])
      ensures !Head(v, k) || BehindEmptyValue(v, k)
    {
      if stage == Content {
        InlinePast(v, i, k);
      } else if Head(v, k) {
        InHead(v, i, k);
        HeadGoesOn(v, i, stage);
      }
    }
  }

  lemma InlinePast(v: string, i: nat, k: nat)
    requires i <= k < |v| && PastHead(v, i) && NoBreak(v, i, k + 1) && !Blank(v[k])
    ensures !Head(v, k) || BehindEmptyValue(v, k)
  {
  }

  lemma HeadGoesOn(v: string, i: nat, stage: Stage)
    requires i < |v| && Fits(v, i, stage) && stage != Content && !Blank(v[i])
    requires (v[i] == '-' && BehindBlanks(v, i)) || exists x: nat :: InExport(v, i, x)
    ensures (v[i] == '-' && stage == LineStart)
            || (ReadKey(v, i).Some? && IsExport(v, ReadKey(v, i).value, stage))
  {
    hide BehindBlanks, BehindDash, BehindExport, ReadKey, IsExport;
    if v[i] == '-' && BehindBlanks(v, i) {
      if stage != LineStart { NotOnlyBlanks(v, i); }
    } else {
      var x: nat :| InExport(v, i, x);
      if i > 0 { BeforeHead(v, i); }
      if x < i { ExportLetters(v, x, i - 1); }
      ExportIsRead(v, i);
      assert IsExport(v, ReadKey(v, i).value, stage) by { ExportTaken(v, i, stage); }
    }
  }

  lemma ExportIsRead(v: string, i: nat)
    requires ExportAt(v, i) && (i > 0 ==> Blank(v[i - 1]) || Break(v[i - 1]) || v[i - 1] == '-')
    ensures ReadKey(v, i) == Some(Key("export", i + 6, false))
  {
    hide KeyEnd;
    assert forall k :: i <= k < i + 6 ==> v[k] == v[i..i + 6][k - i];
    var e := KeyEnd(v, i + 1);
    assert e == i + 6;
  }

  lemma ExportTaken(v: string, i: nat, stage: Stage)
    requires ExportAt(v, i) && stage != Content && ReadKey(v, i) == Some(Key("export", i + 6, false))
    ensures IsExport(v, ReadKey(v, i).value, stage)
  {
  }

  lemma ExportStage(v: string, i: nat, stage: Stage)
    requires i < |v| && Fits(v, i, stage)
    requires ReadKey(v, i).Some? && IsExport(v, ReadKey(v, i).value, stage)
    ensures BehindExport(v, ReadKey(v, i).value.after)
  {
    hide BehindBlanks, BehindDash, KeyEnd;
    var key := ReadKey(v, i).value;
    assert key.name == v[i..key.after];
    assert ExportAt(v, i) && Blanks(v, i + 6, key.after);
  }

  /** From a place past the head, to one that is past it too. */
  ghost predicate Settles(v: string, i: nat, e: nat) {
    || NoBreak(v, i, e)
    || (e < |v| && Break(v[e]))
    || Blanks(v, e, |v|)
    || Marked(v, e)
  }

  /** The last line before `e` holds a quote or a bracket. */
  ghost predicate Marked(v: string, e: nat) {
    exists j: nat :: j < e && NoBreak(v, j, e) && (IsQuote(v[j]) || Opening(v[j]) || Closing(v[j]))
  }

  lemma SettlesPast(v: string, i: nat, e: nat)
    requires i <= e <= |v| && PastHead(v, i) && Settles(v, i, e)
    ensures PastHead(v, e)
  {
    hide Head, BehindEmptyValue;
    forall k: nat | e <= k < |v| && NoBreak(v, e, k + 1) && !Blank(v[k])
      ensures !Head(v, k) || BehindEmptyValue(v, k)
    {
      if NoBreak(v, i, e) {
        InlinePast(v, i, k);
      } else if Marked(v, e) {
        var j: nat :| j < e && NoBreak(v, j, e) && (IsQuote(v[j]) || Opening(v[j]) || Closing(v[j]));
        MarkEndsHead(v, j, k);
      }
    }
  }

  // ---- Values settle ----

  /** When no bracket is open, the line so far belongs to the value, or holds a quote or a bracket. */
  lemma {:induction false} FlowSettles(v: string, s: nat, i: nat, depth: nat, cuts: seq<nat>, r: nat)
    requires s <= i <= |v| && FlowRow(v, s, i, depth, cuts, r) && r < |v|
    requires depth == 0 ==> NoBreak(v, s, i) || Marked(v, i)
    ensures i <= r && (NoBreak(v, s, r) || Marked(v, r))
    decreases |cuts|
  {
    hide Closes, CommentTo;
    if cuts != [] {
      var j := cuts[0];
      if IsQuote(v[i]) || Opening(v[i]) || Closing(v[i]) {
        PieceMarks(v, s, i, depth, j);
      } else if depth == 0 {
        assert j == i + 1 && NoBreak(v, i, j);
      }
      FlowSettles(v, s, j, Nesting(depth, v[i]), cuts[1..], r);
    }
  }

  lemma PieceMarks(v: string, s: nat, i: nat, depth: nat, j: nat)
    requires i < |v| && PieceAt(v, s, i, depth, j) && (IsQuote(v[i]) || Opening(v[i]) || Closing(v[i]))
    ensures Marked(v, j)
  {
    assert IsQuote(v[j - 1]) || Opening(v[j - 1]) || Closing(v[j - 1]);
    assert NoBreak(v, j - 1, j);
  }

  lemma TrimmedSettles(v: string, s: nat, e: nat, r: nat)
    requires s <= e <= r <= |v| && (forall k :: e <= k < r ==> Blank(v[k]))
    requires r < |v| ==> NoBreak(v, s, r) || Marked(v, r)
    ensures Settles(v, s, e)
  {
    if r < |v| && Marked(v, r) {
      var j: nat :| j < r && NoBreak(v, j, r) && (IsQuote(v[j]) || Opening(v[j]) || Closing(v[j]));
      assert j < e;
    }
  }

  lemma FlowValueSettles(v: string, s: nat)
    requires s <= |v|
    ensures Settles(v, s, FlowValueEnd(v, s))
  {
    hide FlowStop, FlowRow, Settles;
    var e := FlowValueEnd(v, s);
    if StartsAt(v, s, REDACTED) {
      RedactedSettles(v, s);
    } else {
      var r := FlowStop(v, s, s, [], None);
      var cuts := FlowRead(v, s, s, []);
      if r < |v| { FlowSettles(v, s, s, 0, cuts, r); }
      TrimmedSettles(v, s, e, r);
    }
  }

  lemma RedactedSettles(v: string, s: nat)
    requires StartsAt(v, s, REDACTED)
    ensures Settles(v, s, s + |REDACTED|)
  {
    assert forall k :: s <= k < s + 10 ==> v[k] == v[s..s + 10][k - s];
  }

  lemma PlainValueSettles(v: string, k: nat, s: nat, name: string, delimiter: char, stage: Stage)
    requires k <= s < |v|
    ensures Settles(v, s, PlainValueEnd(v, k, s, name, delimiter, stage))
  {
    hide BlockEnd, FlowValueEnd, Settles, LineBreak, LineValueEnd;
    FlowValueSettles(v, s);
    LineSettles(v, s);
    InlineSettles(v, s);
    match BlockEnd(v, s, k) {
      case Some(e) => BlockSettles(v, s, e);
      case None =>
    }
  }

  lemma BlockSettles(v: string, s: nat, e: nat)
    requires s <= e <= |v| && (e < |v| ==> IsNewline(v[e]))
    ensures Settles(v, s, e)
  {
  }

  lemma LineSettles(v: string, s: nat)
    requires s <= |v|
    ensures Settles(v, s, LineValueEnd(v, s))
  {
  }

  lemma InlineSettles(v: string, s: nat)
    requires s <= |v|
    ensures Settles(v, s, InlineValueEnd(v, s))
  {
    if StartsAt(v, s, REDACTED) {
      RedactedSettles(v, s);
    } else {
      InlineStopRange(v, s);
    }
  }

  lemma SettlesFrom(v: string, i: nat, s: nat, e: nat)
    requires i <= s <= e && NoBreak(v, i, s) && Settles(v, s, e)
    ensures Settles(v, i, e)
  {
  }

  lemma QuotedSettles(v: string, s: nat, e: nat)
    requires s < e <= |v| && IsQuote(v[e - 1])
    ensures Settles(v, s, e)
  {
    assert NoBreak(v, e - 1, e);
  }

  /** Where the scan goes on behind a secret key: at the end of a value, or where there is none. */
  lemma ValueMoveSettles(v: string, k: nat, s: nat, name: string, delimiter: char, stage: Stage)
    requires k <= s < |v| && !IsBlank(v[s])
    ensures var m := ValueMove(v, k, s, name, delimiter, stage);
            match m case Copy(next, after) => after == Content && (Settles(v, s, next) || next == s + 1)
                    case Replace(_, e, _) => Settles(v, s, e)
  {
    hide PlainValueEnd, QuotedEnd, Settles;
    if IsQuote(v[s]) {
      match QuotedEnd(v, s + 1, v[s]) {
        case Some(e) => QuotedSettles(v, s, e);
        case None => EndSettles(v, s);
      }
    } else {
      PlainValueSettles(v, k, s, name, delimiter, stage);
    }
  }

  lemma EndSettles(v: string, s: nat)
    ensures Settles(v, s, |v|)
  {
  }

  // ---- The scan ----

  /** Where the scan goes on from an index, and in which stage. */
  function After(v: string, i: nat, stage: Stage): (r: (nat, Stage))
    requires i < |v|
    ensures i < r.0 <= |v|
  {
    match Decide(v, i, stage)
    case Copy(next, after) => (next, after)
    case Replace(_, e, _) => (e, Content)
  }

  lemma EmptyFits(v: string, i: nat, stage: Stage, key: Key, b: nat)
    requires i < |v| && Arrives(v, 0, LineStart, i, stage)
    requires ReadKey(v, i) == Some(key) && IsSecretKey(key.name) && ValueStart(v, key) == Some(b) && Break(v[b])
    ensures PastHead(v, b + 1)
  {
    hide Arrives, ReadKey, ValueStart, IsSecretKey, HoldsSecretWord, KeyAt, ValueStartsAt, Head;
    ReadKeyExactly(v, i, key);
    SecretKeysHoldWords(key.name);
    ValueStartExactly(v, key, b);
    var d: nat :| ValueStartsAt(v, key, d, b);
    assert SecretFieldAt(v, i, stage, key, d, b);
    forall j: nat | b + 1 <= j < |v| && NoBreak(v, b + 1, j + 1) && !Blank(v[j]) ensures BehindEmptyValue(v, j) {
      assert NoBreak(v, b + 1, j);
    }
  }

  lemma KeyInLine(v: string, i: nat, key: Key)
    requires i < |v| && ReadKey(v, i) == Some(key)
    ensures NoBreak(v, i, key.after)
  {
    forall k | i <= k < key.after ensures !Break(v[k]) {
      if key.quoted { assert k == i || k == key.after - 1 || k == i + 1 || IsKeyCharacter(v[k]); }
    }
  }

  lemma SecretMoveFits(v: string, i: nat, stage: Stage, key: Key)
    requires i < |v| && Arrives(v, 0, LineStart, i, stage)
    requires ReadKey(v, i) == Some(key) && IsSecretKey(key.name) && PastHead(v, i + 1)
    ensures var m := SecretMove(v, i, key, stage);
            match m case Copy(next, after) => after == Content && PastHead(v, next)
                    case Replace(_, e, _) => PastHead(v, e)
  {
    hide Arrives, ReadKey, IsSecretKey, ValueMove, PastHead, Settles;
    KeyInLine(v, i, key);
    var m := SecretMove(v, i, key, stage);
    var d := BlankEnd(v, key.after);
    var n := if m.Copy? then m.next else m.valueEnd;
    if d >= |v| || !(v[d] == ':' || v[d] == '=') {
      InLineSettles(v, i + 1, d);
      SettlesPast(v, i + 1, d);
    } else {
      var s := BlankEnd(v, d + 1);
      if s >= |v| {
        EndSettles(v, i + 1);
        SettlesPast(v, i + 1, |v|);
      } else {
        ValueMoveSettles(v, i, s, key.name, v[d], stage);
        if n == s + 1 && Break(v[s]) {
          EmptyFits(v, i, stage, key, s);
        } else {
          OneSettles(v, s, n);
          SettlesFrom(v, i + 1, s, n);
          SettlesPast(v, i + 1, n);
        }
      }
    }
  }

  lemma InLineSettles(v: string, i: nat, e: nat)
    requires NoBreak(v, i, e)
    ensures Settles(v, i, e)
  {
  }

  lemma OneSettles(v: string, s: nat, n: nat)
    requires s < |v| && (Settles(v, s, n) || (n == s + 1 && !Break(v[s])))
    ensures Settles(v, s, n)
  {
  }

  /** One move of the scan keeps the stage true to the line. */
  lemma StepFits(v: string, i: nat, stage: Stage)
    requires i < |v| && Fits(v, i, stage) && Arrives(v, 0, LineStart, i, stage)
    ensures var r := After(v, i, stage); Fits(v, r.0, r.1)
  {
    hide Arrives, ReadKey, IsSecretKey, SecretMove, IsExport, Settles, BehindBlanks, BehindDash, BehindExport, PastHead;
    if IsNewline(v[i]) {
      LineBegins(v, i);
    } else if IsBlank(v[i]) {
      BlankFits(v, i, stage);
    } else if v[i] == '-' && stage == LineStart {
      DashFits(v, i);
    } else if ReadKey(v, i).Some? && IsExport(v, ReadKey(v, i).value, stage) {
      ExportStage(v, i, stage);
    } else {
      LeavesHead(v, i, stage);
      if ReadKey(v, i).Some? {
        var key := ReadKey(v, i).value;
        if IsSecretKey(key.name) {
          SecretMoveFits(v, i, stage, key);
        } else {
          KeyInLine(v, i, key);
          InLineSettles(v, i + 1, key.after);
          SettlesPast(v, i + 1, key.after);
        }
      }
    }
  }

  lemma LineBegins(v: string, i: nat)
    requires i < |v| && Break(v[i])
    ensures BehindBlanks(v, i + 1)
  {
    assert Blanks(v, i + 1, i + 1);
  }

  lemma DashFits(v: string, i: nat)
    requires i < |v| && v[i] == '-' && BehindBlanks(v, i)
    ensures BehindDash(v, i + 1)
  {
    hide BehindBlanks;
    assert Blanks(v, i + 1, i + 1);
  }

  lemma BlankFits(v: string, i: nat, stage: Stage)
    requires i < |v| && Blank(v[i]) && Fits(v, i, stage)
    ensures Fits(v, i + 1, stage)
  {
    match stage {
      case LineStart => BlankBehindBlanks(v, i);
      case Dash => BlankBehindDash(v, i);
      case Export => BlankBehindExport(v, i);
      case Content => hide Head, BehindEmptyValue;
    }
  }

  lemma BlankBehindBlanks(v: string, i: nat)
    requires i < |v| && Blank(v[i]) && BehindBlanks(v, i)
    ensures BehindBlanks(v, i + 1)
  {
    var q: nat :| Blanks(v, q, i) && (q > 0 ==> Break(v[q - 1]));
    assert Blanks(v, q, i + 1);
  }

  lemma BlankBehindDash(v: string, i: nat)
    requires i < |v| && Blank(v[i]) && BehindDash(v, i)
    ensures BehindDash(v, i + 1)
  {
    hide BehindBlanks;
    var d: nat :| Blanks(v, d + 1, i) && v[d] == '-' && BehindBlanks(v, d);
    assert Blanks(v, d + 1, i + 1);
  }

  lemma BlankBehindExport(v: string, i: nat)
    requires i < |v| && Blank(v[i]) && BehindExport(v, i)
    ensures BehindExport(v, i + 1)
  {
    hide BehindBlanks, BehindDash;
    var x: nat :| && x < i && ExportAt(v, x) && Blanks(v, x + 6, i)
                  && (BehindBlanks(v, x) || BehindDash(v, x) || BehindExport(v, x));
    assert Blanks(v, x + 6, i + 1);
  }

  lemma {:induction false} ArrivesOn(v: string, i: nat, stage: Stage, k: nat, at: Stage)
    requires i <= |v| && Arrives(v, i, stage, k, at) && k < |v|
    ensures var r := After(v, k, at); Arrives(v, i, stage, r.0, r.1)
    decreases |v| - i
  {
    hide Decide;
    var r := After(v, k, at);
    if !(i == k && stage == at) {
      var next := After(v, i, stage);
      ArrivesOn(v, next.0, next.1, k, at);
    } else {
      assert Arrives(v, r.0, r.1, r.0, r.1);
    }
  }

  lemma {:induction false} ArrivalsFit(v: string, i: nat, stage: Stage, k: nat, at: Stage)
    requires i <= |v| && Arrives(v, 0, LineStart, i, stage) && Fits(v, i, stage) && Arrives(v, i, stage, k, at)
    ensures Fits(v, k, at)
    decreases |v| - i
  {
    hide Decide, Fits;
    if !(i == k && stage == at) {
      var next := After(v, i, stage);
      StepFits(v, i, stage);
      ArrivesOn(v, 0, LineStart, i, stage);
      ArrivalsFit(v, next.0, next.1, k, at);
    }
  }

  // ---- Behind an empty value ----

  /** Of two arrivals the scan comes from the one to the other. */
  lemma {:induction false} ArrivalsChain(v: string, n: nat, first: Stage, i: nat, stage: Stage, k: nat, at: Stage)
    requires n <= |v| && Arrives(v, n, first, i, stage) && Arrives(v, n, first, k, at) && i < k
    requires i <= |v|
    ensures Arrives(v, i, stage, k, at)
    decreases |v| - n
  {
    hide Decide;
    if !(n == i && first == stage) {
      var next := After(v, n, first);
      ArrivesBehind(v, n, first, i, stage);
      ArrivesBehind(v, next.0, next.1, i, stage);
      ArrivalsChain(v, next.0, next.1, i, stage, k, at);
    }
  }

  lemma ContentStays(v: string, i: nat)
    requires i < |v| && !Break(v[i])
    ensures After(v, i, Content).1 == Content
  {
    hide ReadKey, IsSecretKey, SecretMove;
    if ReadKey(v, i).Some? { SecretMoveContent(v, i, ReadKey(v, i).value); }
  }

  lemma SecretMoveContent(v: string, i: nat, key: Key)
    requires i < key.after <= |v|
    ensures SecretMove(v, i, key, Content).Copy? ==> SecretMove(v, i, key, Content).stage == Content
  {
    hide QuotedEnd, PlainValueEnd;
  }

  lemma {:induction false} StaysContent(v: string, i: nat, k: nat, at: Stage)
    requires i <= |v| && Arrives(v, i, Content, k, at) && NoBreak(v, i, k)
    ensures at == Content
    decreases |v| - i
  {
    hide Decide;
    if !(i == k && at == Content) {
      var next := After(v, i, Content);
      ArrivesBehind(v, next.0, next.1, k, at);
      ContentStays(v, i);
      StaysContent(v, next.0, k, at);
    }
  }

  lemma RedactedBegins(v: string, b: nat)
    requires StartsAt(v, b, REDACTED)
    ensures v[b] == '['
  {
    assert v[b] == v[b..b + 10][0];
  }

  lemma NotRedacted(v: string, s: nat)
    requires s < |v| && v[s] != '['
    ensures !StartsAt(v, s, REDACTED)
  {
    if StartsAt(v, s, REDACTED) { RedactedBegins(v, s); }
  }

  lemma EmptyValueEnd(v: string, i: nat, b: nat, name: string, delimiter: char, stage: Stage)
    requires i <= b < |v| && Break(v[b])
    ensures PlainValueEnd(v, i, b, name, delimiter, stage) == b
  {
    assert LineBreak(v, b) == b && LineValueEnd(v, b) == b;
    assert v[b..b] == "";
    NotRedacted(v, b);
  }

  /** At an empty value in front of a break, the scan passes the break and stays in its stage. */
  lemma PassesBreak(v: string, i: nat, at: Stage, key: Key, d: nat, b: nat)
    requires SecretFieldAt(v, i, at, key, d, b) && i < |v| && Break(v[b])
    ensures Decide(v, i, at) == Copy(b + 1, Content)
  {
    hide Arrives, ReadKey, IsSecretKey, HoldsSecretWord, KeyAt, ValueStartsAt, ValueStart, SecretMove;
    ReadKeyExactly(v, i, key);
    KeyIsText(v, i, key);
    SecretKeysHoldWords(key.name);
    ExportIsNotSecret();
    ValuePlaces(v, key, d, b);
    ValueStartExactly(v, key, b);
    SecretMoveAtBreak(v, i, at, key, b);
  }

  lemma SecretMoveAtBreak(v: string, i: nat, at: Stage, key: Key, b: nat)
    requires i < key.after <= |v| && ValueStart(v, key) == Some(b) && Break(v[b])
    ensures SecretMove(v, i, key, at) == Copy(b + 1, Content)
  {
    hide PlainValueEnd, QuotedEnd;
    EmptyValueEnd(v, i, b, key.name, v[BlankEnd(v, key.after)], at);
    assert v[b..b] == "";
  }

  lemma HeadNotBehindEmpty(v: string, k: nat, at: Stage)
    requires Arrives(v, 0, LineStart, k, at) && BehindEmptyValue(v, k)
    ensures at == Content
  {
    hide Arrives, KeyAt, ValueStartsAt, HoldsSecretWord, Decide;
    var i: nat, stage: Stage, key: Key, d: nat, b: nat :|
      SecretFieldAt(v, i, stage, key, d, b) && b < k && Break(v[b]) && NoBreak(v, b + 1, k);
    FieldOrder(v, i, key, d, b);
    PassesBreak(v, i, stage, key, d, b);
    ArrivalsChain(v, 0, LineStart, i, stage, k, at);
    OneMove(v, i, stage, k, at);
    StaysContent(v, b + 1, k, at);
  }

  lemma FieldOrder(v: string, i: nat, key: Key, d: nat, b: nat)
    requires KeyAt(v, i, key) && ValueStartsAt(v, key, d, b)
    ensures i < b < |v|
  {
  }

  lemma OneMove(v: string, i: nat, stage: Stage, k: nat, at: Stage)
    requires i < |v| && Arrives(v, i, stage, k, at) && i < k
    ensures var r := After(v, i, stage); Arrives(v, r.0, r.1, k, at)
  {
    hide Decide;
  }

  /**
   Where a key can be read the scan is at the head of a line exactly when only blanks, one
   dash and export stand before it there, and the line is not behind an empty secret value.
  */
  lemma HeadExactly(v: string, k: nat, at: Stage)
    requires k < |v| && Arrives(v, 0, LineStart, k, at) && !Blank(v[k]) && !Break(v[k])
    ensures at != Content <==> Head(v, k) && !BehindEmptyValue(v, k)
  {
    hide Arrives, BehindBlanks, BehindDash, BehindExport, BehindEmptyValue;
    StartFits(v);
    ArrivalsFit(v, 0, LineStart, k, at);
    if BehindEmptyValue(v, k) { HeadNotBehindEmpty(v, k, at); }
    if at == Content { ContentHere(v, k); }
  }

  lemma StartFits(v: string)
    ensures Fits(v, 0, LineStart) && Arrives(v, 0, LineStart, 0, LineStart)
  {
    assert Blanks(v, 0, 0);
  }

  lemma ContentHere(v: string, k: nat)
    requires k < |v| && PastHead(v, k) && !Blank(v[k]) && !Break(v[k])
    ensures !Head(v, k) || BehindEmptyValue(v, k)
  {
    hide Head, BehindEmptyValue;
    assert NoBreak(v, k, k + 1);
  }
}
