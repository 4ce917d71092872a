/**
 A second scan of scanned text changes nothing. The second scan is followed step by
 step beside the first: at corresponding indexes both stand in the same stage.
*/
module RedactionIdempotent {
  import opened Options
  import opened Redaction
  import opened RedactedValues

  // ---- Two texts that agree from an index on ----

  /** The text of `v` from `i` to `p` stands in `w` at `j`. */
  ghost predicate Agrees(v: string, i: nat, p: nat, w: string, j: nat) {
    i <= p <= |v| && j + (p - i) <= |w| && forall x :: i <= x < p ==> w[j + (x - i)] == v[x]
  }

  lemma Prefixed(v: string, i: nat, p: nat, w: string, j: nat, rest: string)
    requires i <= p <= |v| && j <= |w| && w[j..] == v[i..p] + rest
    ensures Agrees(v, i, p, w, j) && j + (p - i) <= |w|
    ensures w[j + (p - i)..] == rest
  {
    var tail := w[j..];
    assert |tail| == |w| - j;
    assert tail[..p - i] == v[i..p];
    forall x | i <= x < p ensures w[j + (x - i)] == v[x] {
      assert tail[x - i] == v[i..p][x - i];
    }
    assert tail[p - i..] == rest;
    assert w[j + (p - i)..] == tail[p - i..];
  }

  lemma BlanksAgree(v: string, i: nat, p: nat, w: string, j: nat, a: nat)
    requires Agrees(v, i, p, w, j) && i <= a <= |v| && BlankEnd(v, a) <= p
    requires var d := BlankEnd(v, a);
             var t := j + (d - i);
             if d == |v| then t == |w| else t < |w| && !IsBlank(w[t])
    ensures BlankEnd(w, j + (a - i)) == j + (BlankEnd(v, a) - i)
  {
    var d := BlankEnd(v, a);
    var o := j - i;
    forall k | a + o <= k < d + o ensures IsBlank(w[k]) {
      assert w[j + ((k - o) - i)] == v[k - o];
    }
    BlankEndIs(w, a + o, d + o);
  }

  /** Where a copy stops, both texts go on with the same character or both end. */
  lemma BoundaryAgrees(v: string, n: nat, stage: Stage, w: string, t: nat)
    requires n <= |v| && t <= |w| && w[t..] == Scan(v, n, stage)
    ensures n == |v| <==> t == |w|
    ensures n < |v| ==> w[t] == v[n]
  {
    FirstKept(v, n, stage);
    hide Scan;
    if t < |w| { assert w[t] == w[t..][0]; }
  }

  // ---- The second scan at a key ----

  /** How many characters the move at `i` puts out. */
  function MoveWidth(i: nat, m: Move): int {
    match m case Copy(next, _) => next - i case Replace(s, _, text) => s - i + |text|
  }

  /** The output of a move made at index `i`, with everything behind it. */
  function MoveOutput(v: string, i: nat, m: Move): string
    requires i < |v| && (m.Copy? ==> i < m.next <= |v|) && (m.Replace? ==> i < m.valueStart < m.valueEnd <= |v|)
  {
    match m
    case Copy(next, stage) => v[i..next] + Scan(v, next, stage)
    case Replace(s, e, text) => v[i..s] + text + Scan(v, e, Content)
  }

  lemma ValueStarts(v: string, i: nat, s: nat, name: string, delimiter: char, stage: Stage)
    requires i <= s < |v| && !IsBlank(v[s])
    ensures var out := ValueOutput(v, s, ValueMove(v, i, s, name, delimiter, stage));
            |out| > 0 && !IsBlank(out[0])
  {
    hide Scan, QuotedEnd, PlainValueEnd;
    var m := ValueMove(v, i, s, name, delimiter, stage);
    if m.Copy? { assert v[s..m.next][0] == v[s]; }
  }

  predicate IsDelimiter(c: char) { c == ':' || c == '=' }

  lemma MoveWithoutDelimiter(w: string, j: nat, key: Key, stage: Stage)
    requires j < key.after <= |w|
    requires var d := BlankEnd(w, key.after);
             d < |w| ==> !IsDelimiter(w[d])
    ensures SecretMove(w, j, key, stage) == Copy(BlankEnd(w, key.after), Content)
  {
    hide ValueMove, BlankEnd;
  }

  lemma MoveWithDelimiter(w: string, j: nat, key: Key, stage: Stage, d: nat)
    requires j < key.after <= |w| && d == BlankEnd(w, key.after) && d < |w| && IsDelimiter(w[d])
    ensures var s := BlankEnd(w, d + 1);
            SecretMove(w, j, key, stage)
            == if s >= |w| then Copy(|w|, Content) else ValueMove(w, j, s, key.name, w[d], stage)
  {
    hide ValueMove, BlankEnd;
  }

  lemma DelimiterIsNoBlank(c: char)
    ensures IsDelimiter(c) ==> !IsBlank(c)
  {
  }

  lemma NoDelimiterRescan(v: string, i: nat, key: Key, stage: Stage, w: string, j: nat)
    requires i < key.after <= |v| && j < |w|
    requires var d := BlankEnd(v, key.after);
             (d < |v| ==> !IsDelimiter(v[d])) && w[j..] == v[i..d] + Scan(v, d, Content)
    ensures j + (key.after - i) <= |w|
    ensures SecretMove(w, j, Key(key.name, j + (key.after - i), key.quoted), stage)
         == Copy(j + (BlankEnd(v, key.after) - i), Content)
  {
    hide *;
    var d := BlankEnd(v, key.after);
    Prefixed(v, i, d, w, j, Scan(v, d, Content));
    BoundaryAgrees(v, d, Content, w, j + (d - i));
    BlanksAgree(v, i, d, w, j, key.after);
    MoveWithoutDelimiter(w, j, Key(key.name, j + (key.after - i), key.quoted), stage);
  }

  /** The delimiter behind a key is found again where the text up to `p` agrees. */
  lemma DelimiterAgrees(v: string, i: nat, key: Key, p: nat, w: string, j: nat)
    requires i < key.after <= |v| && Agrees(v, i, p, w, j)
    requires BlankEnd(v, key.after) < p && IsDelimiter(v[BlankEnd(v, key.after)])
    ensures var d := BlankEnd(v, key.after);
            var t := j + (d - i);
            t < |w| && w[t] == v[d] && BlankEnd(w, j + (key.after - i)) == t
  {
    var d := BlankEnd(v, key.after);
    assert w[j + (d - i)] == v[d];
    hide *;
    DelimiterIsNoBlank(v[d]);
    BlanksAgree(v, i, p, w, j, key.after);
  }

  lemma NoValueRescan(v: string, i: nat, key: Key, stage: Stage, d: nat, w: string, j: nat)
    requires i < key.after <= |v| && Agrees(v, i, |v|, w, j) && |w| == j + (|v| - i)
    requires d == BlankEnd(v, key.after) && d < |v| && IsDelimiter(v[d]) && BlankEnd(v, d + 1) == |v|
    ensures SecretMove(w, j, Key(key.name, j + (key.after - i), key.quoted), stage) == Copy(|w|, Content)
  {
    hide *;
    DelimiterAgrees(v, i, key, |v|, w, j);
    BlanksAgree(v, i, |v|, w, j, d + 1);
    MoveWithDelimiter(w, j, Key(key.name, j + (key.after - i), key.quoted), stage, j + (d - i));
  }

  lemma ValuedRescan(v: string, i: nat, key: Key, stage: Stage, d: nat, s: nat, w: string, j: nat, t: nat)
    requires i < key.after <= |v| && Agrees(v, i, s, w, j) && t == j + (s - i) && t < |w| && !IsBlank(w[t])
    requires d == BlankEnd(v, key.after) && d < |v| && IsDelimiter(v[d]) && s == BlankEnd(v, d + 1) && s < |v|
    ensures j + (key.after - i) <= |w|
    ensures SecretMove(w, j, Key(key.name, j + (key.after - i), key.quoted), stage)
         == ValueMove(w, j, t, key.name, v[d], stage)
  {
    hide *;
    DelimiterAgrees(v, i, key, s, w, j);
    BlanksAgree(v, i, s, w, j, d + 1);
    MoveWithDelimiter(w, j, Key(key.name, j + (key.after - i), key.quoted), stage, j + (d - i));
  }

  /** The second scan stands at a value of its own where the first one did. */
  lemma ValueAgrees(v: string, i: nat, s: nat, name: string, delimiter: char, stage: Stage, w: string, j: nat)
    requires i < s < |v| && !IsBlank(v[s]) && j < |w|
    requires w[j..] == v[i..s] + ValueOutput(v, s, ValueMove(v, i, s, name, delimiter, stage))
    ensures Agrees(v, i, s, w, j) && j + (s - i) < |w| && !IsBlank(w[j + (s - i)])
    ensures ValueMove(w, j, j + (s - i), name, delimiter, stage)
         == Copy(j + (s - i) + OutputWidth(s, ValueMove(v, i, s, name, delimiter, stage)), Content)
  {
    hide *;
    var t := j + (s - i);
    var out := ValueOutput(v, s, ValueMove(v, i, s, name, delimiter, stage));
    Prefixed(v, i, s, w, j, out);
    ValueStarts(v, i, s, name, delimiter, stage);
    assert w[t] == w[t..][0];
    ValueRescan(v, i, s, name, delimiter, stage, w, j, t);
  }

  lemma AtValue(v: string, i: nat, s: nat, m: Move)
    requires i < s < |v|
    requires (m.Copy? ==> s < m.next <= |v|) && (m.Replace? ==> m.valueStart == s < m.valueEnd <= |v|)
    ensures MoveOutput(v, i, m) == v[i..s] + ValueOutput(v, s, m)
    ensures MoveWidth(i, m) == s - i + OutputWidth(s, m)
  {
    hide Scan;
    match m {
      case Copy(next, stage) => Reassociated(v, i, s, next, Scan(v, next, stage));
      case Replace(_, e, text) => assert v[i..s] + text + Scan(v, e, Content) == v[i..s] + (text + Scan(v, e, Content));
    }
  }

  lemma Reassociated(v: string, i: nat, s: nat, n: nat, rest: string)
    requires i <= s <= n <= |v|
    ensures v[i..n] + rest == v[i..s] + (v[s..n] + rest)
  {
    assert v[i..n] == v[i..s] + v[s..n];
  }

  /** A secret key with whatever follows it: the second scan moves past what the first put out for it. */
  lemma SecretRescan(v: string, i: nat, key: Key, stage: Stage, w: string, j: nat)
    requires i < key.after <= |v| && j < |w|
    requires w[j..] == MoveOutput(v, i, SecretMove(v, i, key, stage))
    ensures j + (key.after - i) <= |w|
    ensures SecretMove(w, j, Key(key.name, j + (key.after - i), key.quoted), stage)
         == Copy(j + MoveWidth(i, SecretMove(v, i, key, stage)), Content)
  {
    hide *;
    var d := BlankEnd(v, key.after);
    if d >= |v| || !IsDelimiter(v[d]) {
      MoveWithoutDelimiter(v, i, key, stage);
      CopyMove(v, i, d);
      NoDelimiterRescan(v, i, key, stage, w, j);
    } else {
      MoveWithDelimiter(v, i, key, stage, d);
      var s := BlankEnd(v, d + 1);
      if s >= |v| {
        NothingLeft(v);
        CopyMove(v, i, |v|);
        Prefixed(v, i, |v|, w, j, "");
        NoValueRescan(v, i, key, stage, d, w, j);
      } else {
        AtValue(v, i, s, SecretMove(v, i, key, stage));
        ValueAgrees(v, i, s, key.name, v[d], stage, w, j);
        ValuedRescan(v, i, key, stage, d, s, w, j, j + (s - i));
      }
    }
  }

  lemma CopyMove(v: string, i: nat, n: nat)
    requires i < n <= |v|
    ensures MoveOutput(v, i, Copy(n, Content)) == v[i..n] + Scan(v, n, Content)
    ensures MoveWidth(i, Copy(n, Content)) == n - i
  {
  }

  // ---- The second scan at any index ----

  /** Where a copy stops at `n`, both texts go on with the same character or both end. */
  ghost predicate Boundary(v: string, n: nat, w: string, t: int) {
    n <= |v| && 0 <= t <= |w| && (n == |v| <==> t == |w|) && (n < |v| && t < |w| ==> w[t] == v[n])
  }

  lemma KeptAgrees(v: string, i: nat, stage: Stage, n: nat, w: string, j: nat)
    requires i <= n <= |v| && KeepsTo(v, i, stage, n) && j <= |w| && w[j..] == Scan(v, i, stage)
    ensures Agrees(v, i, n, w, j) && Boundary(v, n, w, j + (n - i))
  {
    hide Scan;
    var out := w[j..];
    assert |out| == |w| - j && out == out[..n - i] + out[n - i..];
    Prefixed(v, i, n, w, j, out[n - i..]);
    if n < |v| { assert out[n - i] == w[j + (n - i)]; }
  }

  /** Whether a key may start here does not depend on the text: the characters before are of one kind. */
  ghost predicate SameSide(v: string, i: nat, w: string, j: nat) {
    i <= |v| && j <= |w|
    && (i < |v| && IsKeyStart(v[i]) ==>
          ((i > 0 && IsKeyCharacter(v[i - 1])) <==> (j > 0 && IsKeyCharacter(w[j - 1]))))
  }

  /** How far reading a key looks ahead: the last index it compares. */
  function Horizon(v: string, i: nat): (n: nat)
    requires i < |v|
    ensures i <= n <= |v|
  {
    if IsQuote(v[i]) then if i + 1 < |v| && IsKeyStart(v[i + 1]) then KeyEnd(v, i + 2) else i + 1
    else if IsKeyStart(v[i]) && (i == 0 || !IsKeyCharacter(v[i - 1])) then KeyEnd(v, i + 1)
    else i
  }

  lemma HorizonKept(v: string, i: nat, stage: Stage)
    requires i < |v| && !IsNewline(v[i]) && !IsBlank(v[i]) && !(v[i] == '-' && stage.LineStart?)
    ensures KeepsTo(v, i, stage, Horizon(v, i))
  {
    hide Scan, SecretMove, KeyEnd, IsSecretKey;
    var n := Horizon(v, i);
    if !IsQuote(v[i]) && n == i {
      FirstKept(v, i, stage);
    } else if ReadKey(v, i).None? && n > i + 1 {
      KeyRunKept(v, i + 1);
      KeptBehindCopy(v, i, stage, i + 1, Content, n);
    } else {
      MoveKept(v, i, stage, n);
    }
  }

  lemma KeyRunAgrees(v: string, i: nat, n: nat, w: string, j: nat, a: nat)
    requires Agrees(v, i, n, w, j) && Boundary(v, n, w, j + (n - i)) && i <= a <= |v| && KeyEnd(v, a) == n
    ensures KeyEnd(w, j + (a - i)) == j + (n - i)
    ensures w[j + (a - i)..j + (n - i)] == v[a..n]
  {
    hide KeyEnd;
    forall k | j + (a - i) <= k < j + (n - i)
      ensures IsKeyCharacter(w[k]) && w[k] == v[k - j + i]
    {
      assert w[j + ((k - j + i) - i)] == v[k - j + i];
    }
    KeyEndIs(w, j + (a - i), j + (n - i));
  }

  /** A key is read at corresponding indexes, or at neither. */
  lemma KeyAgrees(v: string, i: nat, w: string, j: nat)
    requires i < |v| && j < |w| && w[j] == v[i] && SameSide(v, i, w, j)
    requires var n := Horizon(v, i);
             Agrees(v, i, n, w, j) && Boundary(v, n, w, j + (n - i))
    ensures ReadKey(w, j) == match ReadKey(v, i)
                             case None => None
                             case Some(key) => Some(Key(key.name, j + (key.after - i), key.quoted))
  {
    hide KeyEnd;
    var n := Horizon(v, i);
    if IsQuote(v[i]) {
      if i + 1 < |v| && IsKeyStart(v[i + 1]) {
        assert w[j + ((i + 1) - i)] == v[i + 1];
        KeyRunAgrees(v, i, n, w, j, i + 2);
        KeyRunText(v, i, n, w, j, i + 1);
      }
    } else if IsKeyStart(v[i]) && (i == 0 || !IsKeyCharacter(v[i - 1])) {
      KeyRunAgrees(v, i, n, w, j, i + 1);
      KeyRunText(v, i, n, w, j, i);
    }
  }

  lemma KeyRunText(v: string, i: nat, n: nat, w: string, j: nat, a: nat)
    requires Agrees(v, i, n, w, j) && i <= a <= n
    ensures w[j + (a - i)..j + (n - i)] == v[a..n]
  {
    forall k | j + (a - i) <= k < j + (n - i)
      ensures w[k] == v[k - j + i]
    {
      assert w[j + ((k - j + i) - i)] == v[k - j + i];
    }
  }

  /** The stage behind a move. */
  function StageAfter(m: Move): Stage {
    match m case Copy(_, stage) => stage case Replace(_, _, _) => Content
  }

  lemma ScanIsMove(v: string, i: nat, stage: Stage)
    requires i < |v|
    ensures Scan(v, i, stage) == MoveOutput(v, i, Decide(v, i, stage))
  {
    hide Decide;
  }

  lemma SecretStage(v: string, i: nat, key: Key, stage: Stage)
    requires i < key.after <= |v|
    ensures StageAfter(SecretMove(v, i, key, stage)) == Content
  {
    hide QuotedEnd, PlainValueEnd;
  }

  /** The second scan copies what the first one put out, and reaches the same stage. */
  lemma DecideRescan(v: string, i: nat, stage: Stage, w: string, j: nat)
    requires i < |v| && j < |w| && w[j..] == Scan(v, i, stage) && SameSide(v, i, w, j)
    ensures Decide(w, j, stage) == Copy(j + MoveWidth(i, Decide(v, i, stage)), StageAfter(Decide(v, i, stage)))
  {
    hide Scan, SecretMove, KeyEnd, IsSecretKey, ReadKey, MoveOutput, IsExport, Horizon, KeepsTo, Agrees, SameSide;
    FirstKept(v, i, stage);
    BoundaryAgrees(v, i, stage, w, j);
    if !IsNewline(v[i]) && !IsBlank(v[i]) && !(v[i] == '-' && stage.LineStart?) {
      HorizonKept(v, i, stage);
      KeptAgrees(v, i, stage, Horizon(v, i), w, j);
      KeyAgrees(v, i, w, j);
      match ReadKey(v, i) {
        case None =>
        case Some(key) =>
          var second := Key(key.name, j + (key.after - i), key.quoted);
          ExportAgrees(v, i, key, stage, w, j, second);
          if !IsExport(v, key, stage) && IsSecretKey(key.name) {
            ScanIsMove(v, i, stage);
            SecretStage(v, i, key, stage);
            SecretRescan(v, i, key, stage, w, j);
          }
      }
    }
  }

  lemma ExportAgrees(v: string, i: nat, key: Key, stage: Stage, w: string, j: nat, second: Key)
    requires i < |v| && j < |w| && ReadKey(v, i) == Some(key) && ReadKey(w, j) == Some(second)
    requires second == Key(key.name, j + (key.after - i), key.quoted)
    requires var n := Horizon(v, i);
             Boundary(v, n, w, j + (n - i))
    ensures IsExport(w, second, stage) <==> IsExport(v, key, stage)
  {
    hide KeyEnd;
  }

  // ---- Behind a move the two scans still correspond ----

  lemma ValueSide(v: string, i: nat, s: nat, name: string, delimiter: char, stage: Stage)
    requires i <= s < |v| && !IsBlank(v[s])
    ensures var m := ValueMove(v, i, s, name, delimiter, stage);
            m.Replace? ==> SideOf(v, m)
  {
    hide PlainValueEnd, LineTail, LineRule, QuotedEnd;
    if !IsQuote(v[s]) {
      PlainEndTail(v, i, s, name, delimiter, stage);
    }
  }

  /** Behind a replaced value no key can start that the replacement would hide or uncover. */
  predicate SideOf(v: string, m: Move) {
    m.Replace? && 0 < m.valueEnd <= |v| && |m.text| > 0 && !IsKeyCharacter(m.text[|m.text| - 1])
    && (m.valueEnd < |v| && IsKeyStart(v[m.valueEnd]) ==> !IsKeyCharacter(v[m.valueEnd - 1]))
  }

  lemma ReplaceSide(v: string, i: nat, stage: Stage)
    requires i < |v| && Decide(v, i, stage).Replace?
    ensures SideOf(v, Decide(v, i, stage))
  {
    hide ValueMove, IsSecretKey, SideOf, BlankEnd;
    var key := ReadKey(v, i).value;
    var d := BlankEnd(v, key.after);
    var s := BlankEnd(v, d + 1);
    ValueSide(v, i, s, key.name, v[d], stage);
  }

  lemma CopySide(v: string, i: nat, n: nat, stage: Stage, w: string, j: nat)
    requires i < n <= |v| && j <= |w| && w[j..] == v[i..n] + Scan(v, n, stage)
    ensures j + (n - i) <= |w| && w[j + (n - i)..] == Scan(v, n, stage)
    ensures SameSide(v, n, w, j + (n - i))
  {
    hide Scan;
    Prefixed(v, i, n, w, j, Scan(v, n, stage));
    assert w[j + ((n - 1) - i)] == v[n - 1];
  }

  lemma ReplacedSide(v: string, i: nat, m: Move, w: string, j: nat)
    requires i < |v| && m.Replace? && i < m.valueStart < m.valueEnd <= |v| && SideOf(v, m)
    requires j <= |w| && w[j..] == v[i..m.valueStart] + m.text + Scan(v, m.valueEnd, Content)
    ensures var t := j + MoveWidth(i, m);
            t <= |w| && w[t..] == Scan(v, m.valueEnd, Content) && SameSide(v, m.valueEnd, w, t)
  {
    hide Scan;
    var rest := Scan(v, m.valueEnd, Content);
    var s := m.valueStart;
    assert v[i..s] + m.text + rest == v[i..s] + (m.text + rest);
    Prefixed(v, i, s, w, j, m.text + rest);
    Prefixed(m.text, 0, |m.text|, w, j + (s - i), rest);
  }

  /** Where the first scan goes on. */
  function Resume(m: Move): nat {
    match m case Copy(next, _) => next case Replace(_, e, _) => e
  }

  lemma StepSide(v: string, i: nat, stage: Stage, w: string, j: nat)
    requires i < |v| && j <= |w| && w[j..] == Scan(v, i, stage)
    ensures var m := Decide(v, i, stage);
            var t := j + MoveWidth(i, m);
            && j < t <= |w| && w[t..] == Scan(v, Resume(m), StageAfter(m)) && SameSide(v, Resume(m), w, t)
  {
    hide Scan, Decide, SideOf, SameSide;
    var m := Decide(v, i, stage);
    ScanIsMove(v, i, stage);
    match m {
      case Copy(n, after) => CopySide(v, i, n, after, w, j);
      case Replace(s, e, text) =>
        ReplaceSide(v, i, stage);
        ReplacedSide(v, i, m, w, j);
    }
  }

  /** From corresponding indexes the second scan puts out just what it reads. */
  lemma {:induction false} Rescan(v: string, i: nat, stage: Stage, w: string, j: nat)
    requires i <= |v| && j <= |w| && w[j..] == Scan(v, i, stage) && SameSide(v, i, w, j)
    ensures Scan(w, j, stage) == w[j..]
    decreases |v| - i
  {
    hide Decide, SameSide;
    if i < |v| {
      var m := Decide(v, i, stage);
      var t := j + MoveWidth(i, m);
      StepSide(v, i, stage, w, j);
      DecideRescan(v, i, stage, w, j);
      Rescan(v, Resume(m), StageAfter(m), w, t);
      CopiedWhole(w, j, t, stage, StageAfter(m));
    }
  }

  lemma CopiedWhole(w: string, j: nat, t: nat, stage: Stage, after: Stage)
    requires j < t <= |w| && Decide(w, j, stage) == Copy(t, after) && Scan(w, t, after) == w[t..]
    ensures Scan(w, j, stage) == w[j..]
  {
    hide Decide;
    assert w[j..] == w[j..t] + w[t..];
  }

  /** Redacting redacted text changes nothing, whatever the text. */
  lemma RedactingTwiceIsRedactingOnce(v: string)
    ensures RedactAssignments(RedactAssignments(v)) == RedactAssignments(v)
  {
    hide Scan;
    var w := RedactAssignments(v);
    assert w[0..] == w;
    Rescan(v, 0, LineStart, w, 0);
  }
}
