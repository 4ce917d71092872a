/**
 Idempotence of the private key pass, seen from its input: a second pass can change the
 output only where a begin marker without an end runs into a block that is replaced.
*/
module OpenMarkers {
  import opened Options
  import opened Redaction
  import opened PrivateKeys
  import opened PrivateKeyTheorems
  import opened PrivateKeyLimits
  import opened SecondPass

  /** The marker found from the cursor has no end of its own: its label runs into the next block. */
  predicate RunsOn(v: string, c: nat)
    requires c <= |v|
  {
    var begin := Find(v, BEGIN, c);
    && begin.Some?
    && var header := HeaderEnd(v, begin.value + |BEGIN|);
       header.Rejected? && NextStep(v, header.at).Block? && NextStep(v, header.at).begin == header.at
  }

  /** Some marker the pass meets from the cursor on runs into a block. */
  predicate OpenBlock(v: string, cursor: nat)
    requires cursor <= |v|
    decreases |v| - cursor
  {
    RunsOn(v, cursor)
    || match NextStep(v, cursor)
       case Finish => false
       case Skip(next) => OpenBlock(v, next)
       case Block(_, end) => OpenBlock(v, end)
  }

  // ---- Words that the output shows ----

  predicate NoBracket(word: string) { forall k :: 0 <= k < |word| ==> word[k] != '[' }

  /** Up to a cursor `b` the output is the text; then it ends with the text, or a replaced block follows. */
  lemma OutputFront(v: string, c: nat) returns (b: nat, rest: string)
    requires c <= |v|
    ensures c <= b <= |v|
    ensures if b == |v| then Pass(v, c) == v[c..b] else Pass(v, c) == v[c..b] + REDACTED + rest && v[b] == '-'
  {
    PassReplacesBlocks(v, c);
    hide BlockSpans, Pass, LABELS, HeaderEnd;
    var spans := BlockSpans(v, c);
    if spans == [] {
      b, rest := |v|, "";
      assert v[c..] == v[c..|v|];
    } else {
      b, rest := spans[0].begin, Spliced(v, spans[0].end, spans[1..]);
      assert IsBlock(v, spans[0]);
      HeadedBegins(v, b);
    }
  }

  /** A word without brackets that the output starts with is in the text. */
  lemma OutputWord(v: string, c: nat, word: string)
    requires c <= |v| && NoBracket(word) && StartsAt(Pass(v, c), 0, word)
    ensures StartsAt(v, c, word)
  {
    var b, rest := OutputFront(v, c);
    hide Pass;
    var left := v[c..b];
    if b < |v| {
      BeforeRedacted(left, rest);
      if |left| < |word| { CharacterOf(left + REDACTED + rest, 0, word, |left|); }
    }
    assert Pass(v, c)[0..|word|] == left[0..|word|];
    PartOfPart(v, c, b, 0, |word|);
  }

  /** The output starts with the characters of the text that are no hyphens. */
  lemma OutputKeeps(v: string, c: nat, word: string)
    requires c <= |v| && StartsAt(v, c, word) && forall k :: 0 <= k < |word| ==> word[k] != '-'
    ensures StartsAt(Pass(v, c), 0, word)
  {
    var b, rest := OutputFront(v, c);
    hide Pass;
    assert b >= c + |word| by {
      assert forall k :: c <= k < c + |word| ==> v[k] == v[c..c + |word|][k - c];
    }
    PartOfPart(v, c, b, 0, |word|);
    var left := v[c..b];
    if b < |v| {
      assert (left + REDACTED + rest)[0..|word|] == left[0..|word|];
    }
  }

  lemma CopiedFront(v: string, c: nat, n: nat, i: nat, word: string)
    requires c <= n <= |v| && i + |word| <= n - c && StartsAt(v[c..n], i, word)
    ensures StartsAt(v, c + i, word)
  {
    PartOfPart(v, c, n, i, i + |word|);
  }

  lemma CopiedAcross(v: string, c: nat, n: nat, i: nat, word: string)
    requires c <= n <= |v| && i <= n - c < i + |word| && NoBracket(word)
    requires v[c..n][i..] == word[..n - c - i] && StartsAt(Pass(v, n), 0, word[n - c - i..])
    ensures StartsAt(v, c + i, word)
  {
    hide Pass, StartsAt;
    OutputWord(v, n, word[n - c - i..]);
    PartOfPart(v, c, n, i, n - c);
    WordJoined(v, c + i, n, word);
  }

  /** So it is for a word that starts in text copied before. */
  lemma CopiedWord(v: string, c: nat, n: nat, i: nat, word: string)
    requires c <= n <= |v| && i <= n - c && NoBracket(word) && StartsAt(v[c..n] + Pass(v, n), i, word)
    ensures StartsAt(v, c + i, word)
  {
    hide Pass, StartsAt, NoBracket;
    if i + |word| <= n - c {
      WordInFront(v[c..n], Pass(v, n), i, word);
      CopiedFront(v, c, n, i, word);
    } else {
      WordAcross(v[c..n], Pass(v, n), i, word);
      CopiedAcross(v, c, n, i, word);
    }
  }

  lemma WordJoined(v: string, k: nat, n: nat, word: string)
    requires k <= n <= |v| && n - k <= |word|
    requires v[k..n] == word[..n - k] && StartsAt(v, n, word[n - k..])
    ensures StartsAt(v, k, word)
  {
    assert v[k..k + |word|] == v[k..n] + v[n..k + |word|];
    assert word == word[..n - k] + word[n - k..];
  }

  lemma WordInFront(left: string, rest: string, i: nat, word: string)
    requires i + |word| <= |left| && StartsAt(left + rest, i, word)
    ensures StartsAt(left, i, word)
  {
    assert (left + rest)[i..i + |word|] == left[i..i + |word|];
  }

  lemma WordAcross(left: string, rest: string, i: nat, word: string)
    requires i <= |left| < i + |word| && StartsAt(left + rest, i, word)
    ensures left[i..] == word[..|left| - i] && StartsAt(rest, 0, word[|left| - i..])
  {
    var w := left + rest;
    var m := |left|;
    assert w[i..i + |word|] == left[i..] + rest[..i + |word| - m];
    assert word[..m - i] == left[i..];
    assert word[m - i..] == rest[..i + |word| - m] == rest[0..i + |word| - m];
  }

  // ---- The second pass beside the first ----

  lemma FrontWord(left: string, rest: string, i: nat, word: string)
    requires StartsAt(left, i, word)
    ensures StartsAt(left + rest, i, word)
  {
    assert (left + rest)[i..i + |word|] == left[i..i + |word|];
  }

  /** Text copied before the cursor `n`, and the output from there on. */
  function Output(v: string, c: nat, n: nat): (out: string)
    requires c <= n <= |v|
    ensures |out| >= n - c
  {
    v[c..n] + Pass(v, n)
  }

  lemma BreakCopied(v: string, c: nat, n: nat, i: nat)
    requires c <= i < n <= |v| && BreaksAt(Output(v, c, n), i - c)
    ensures BreaksAt(v, i)
  {
    hide Pass;
    var out := Output(v, c, n);
    assert out[i - c] == v[i];
    if !IsNewline(v[i]) {
      var word := out[i - c..i - c + 2];
      assert word[0] == '\\' && (word[1] == 'r' || word[1] == 'n');
      CopiedWord(v, c, n, i - c, word);
      assert v[i..i + 2][1] == word[1];
    }
  }

  lemma BreakMirrored(v: string, n: nat)
    requires n < |v| && BreaksAt(v, n)
    ensures |Pass(v, n)| > 0 && BreaksAt(Pass(v, n), 0) && Pass(v, n)[0] != '-'
  {
    var word := if IsNewline(v[n]) then [v[n]] else v[n..n + 2];
    assert v[n..n + |word|] == word;
    OutputKeeps(v, n, word);
    hide Pass;
    var rest := Pass(v, n);
    assert rest[0..|word|] == word;
    assert rest[0] == word[0];
    if |word| == 2 { assert rest[1] == word[1]; }
  }

  lemma BeginMirrored(v: string, n: nat)
    requires n <= |v| && StartsAt(v, n, BEGIN) && !(NextStep(v, n).Block? && NextStep(v, n).begin == n)
    ensures StartsAt(Pass(v, n), 0, BEGIN)
  {
    hide LABELS, HeaderEnd, Pass;
    PassIs(v, n);
    var next := NextStep(v, n).next;
    PartOfPart(v, n, next, 0, |BEGIN|);
    FrontWord(v[n..next], Pass(v, next), 0, BEGIN);
  }

  lemma BreaksInSuffix(w: string, low: nat, i: nat)
    requires low + i < |w|
    ensures BreaksAt(w[low..], i) <==> BreaksAt(w, low + i)
  {
  }

  /** Where a label was refused, it is refused in the output. */
  lemma RefusedMirrored(v: string, c: nat, n: nat)
    requires c <= n <= |v| && HeaderEnd(v, n) == Rejected(n)
    requires !(NextStep(v, n).Block? && NextStep(v, n).begin == n)
    ensures HeaderEnd(Output(v, c, n), n - c) == Rejected(n - c)
  {
    hide NextStep, Pass;
    var out, m := Output(v, c, n), n - c;
    assert out[m..] == Pass(v, n);
    if n == |v| {
      PassIs(v, n);
      EndOfText(v);
    } else if StartsAt(v, n, BEGIN) {
      BeginMirrored(v, n);
      StartsInSuffix(out, m, 0, BEGIN);
    } else {
      BreakMirrored(v, n);
      BreaksInSuffix(out, m, 0);
      CharacterOf(out, m, MARKER_END, 0);
      assert out[m] == Pass(v, n)[0];
    }
  }

  lemma EndOfText(v: string)
    ensures NextStep(v, |v|) == Finish
  {
  }

  /** The label of a marker that is skipped ends in the output where it ends in the text. */
  lemma {:induction false} HeaderMirrored(v: string, c: nat, n: nat, i: nat)
    requires c <= i <= n <= |v|
    requires var r := HeaderEnd(v, i);
             || (r.Ended? && r.at == n - |MARKER_END|)
             || (r == Rejected(n) && !(NextStep(v, n).Block? && NextStep(v, n).begin == n))
    ensures HeaderEnd(Output(v, c, n), i - c)
         == if HeaderEnd(v, i).Ended? then Ended(n - |MARKER_END| - c) else Rejected(n - c)
    decreases n - i
  {
    hide NextStep, Pass, StartsAt, BreaksAt, Output;
    var out := Output(v, c, n);
    var r := HeaderEnd(v, i);
    if i < r.at {
      HeaderMirrored(v, c, n, i + 1);
      WordsMirrored(v, c, n, i);
      if BreaksAt(out, i - c) { BreakCopied(v, c, n, i); }
    } else if r.Ended? {
      WordsMirrored(v, c, n, i);
      MarkMirrored(v, c, n);
    } else {
      RefusedMirrored(v, c, n);
    }
  }

  lemma WordsMirrored(v: string, c: nat, n: nat, i: nat)
    requires c <= i <= n <= |v|
    ensures StartsAt(Output(v, c, n), i - c, BEGIN) ==> StartsAt(v, i, BEGIN)
    ensures StartsAt(Output(v, c, n), i - c, MARKER_END) ==> StartsAt(v, i, MARKER_END)
  {
    hide Pass;
    if StartsAt(Output(v, c, n), i - c, BEGIN) { CopiedWord(v, c, n, i - c, BEGIN); }
    if StartsAt(Output(v, c, n), i - c, MARKER_END) { CopiedWord(v, c, n, i - c, MARKER_END); }
  }

  lemma MarkMirrored(v: string, c: nat, n: nat)
    requires c <= n - |MARKER_END| && n <= |v| && StartsAt(v, n - |MARKER_END|, MARKER_END)
    ensures StartsAt(Output(v, c, n), n - |MARKER_END| - c, MARKER_END)
  {
    hide Pass;
    PartOfPart(v, c, n, n - |MARKER_END| - c, n - c);
    FrontWord(v[c..n], Pass(v, n), n - |MARKER_END| - c, MARKER_END);
  }

  lemma BeginCarried(v: string, c: nat, n: nat, g: nat)
    requires c <= g && g + |BEGIN| <= n <= |v| && StartsAt(v, g, BEGIN)
    ensures StartsAt(Output(v, c, n), g - c, BEGIN)
  {
    hide Pass;
    PartOfPart(v, c, n, g - c, g - c + |BEGIN|);
    FrontWord(v[c..n], Pass(v, n), g - c, BEGIN);
  }

  /** The marker is found again. */
  lemma BeginFound(v: string, c: nat, n: nat)
    requires c <= n <= |v|
    requires var found := Find(v, BEGIN, c);
             found.Some? && found.value + |BEGIN| <= n
    ensures Find(Output(v, c, n), BEGIN, 0) == Some(Find(v, BEGIN, c).value - c)
  {
    hide Find, Pass, StartsAt;
    var g := Find(v, BEGIN, c).value;
    BeginCarried(v, c, n, g);
    var out := Output(v, c, n);
    forall k | 0 <= k < g - c ensures !StartsAt(out, k, BEGIN) {
      WordsMirrored(v, c, n, c + k);
    }
  }

  /** A skip that does not run into a block is made again over the output. */
  lemma SkipMirrored(v: string, c: nat, n: nat)
    requires c <= |v| && NextStep(v, c) == Skip(n) && !RunsOn(v, c)
    ensures NextStep(Output(v, c, n), 0) == Skip(n - c)
  {
    hide HeaderEnd, LABELS, Output, Find, StartsAt;
    var g := Find(v, BEGIN, c).value;
    BeginFound(v, c, n);
    HeaderMirrored(v, c, n, g + |BEGIN|);
    LabelMirrored(v, c, n, g + |BEGIN|);
  }

  lemma LabelMirrored(v: string, c: nat, n: nat, start: nat)
    requires c <= start <= n <= |v|
    ensures forall e :: start <= e <= n ==> Output(v, c, n)[start - c..e - c] == v[start..e]
  {
    hide Pass;
    forall e | start <= e <= n ensures Output(v, c, n)[start - c..e - c] == v[start..e] {
      assert Output(v, c, n)[start - c..e - c] == v[c..n][start - c..e - c];
      PartOfPart(v, c, n, start - c, e - c);
    }
  }

  lemma PassLater(v: string, c: nat, n: nat)
    requires c <= n <= |v| && forall k :: c <= k < n ==> !StartsAt(v, k, BEGIN)
    ensures Pass(v, c) == v[c..n] + Pass(v, n)
  {
    StepLater(v, c, n);
    hide StartsAt, Pass;
    PassIs(v, c);
    PassIs(v, n);
    FoundBehind(v, n);
    match NextStep(v, n) {
      case Finish => assert v[c..] == v[c..n] + v[n..];
      case Skip(next) => Regrouped(v, c, n, next, Pass(v, next));
      case Block(begin, end) =>
        Regrouped(v, c, n, begin, REDACTED + Pass(v, end));
        Associated(v[c..begin], REDACTED, Pass(v, end));
        Associated(v[n..begin], REDACTED, Pass(v, end));
    }
  }

  lemma FoundBehind(v: string, n: nat)
    requires n <= |v|
    ensures NextStep(v, n).Skip? ==> n <= NextStep(v, n).next
    ensures NextStep(v, n).Block? ==> n <= NextStep(v, n).begin
  {
    hide NextStep;
  }

  /** Nothing before or in what replaced a block is a begin marker. */
  lemma NoBeginUpToBlock(v: string, c: nat, begin: nat, end: nat, k: nat)
    requires c <= |v| && NextStep(v, c) == Block(begin, end) && k < begin - c + |REDACTED|
    ensures !StartsAt(v[c..begin] + REDACTED + Pass(v, end), k, BEGIN)
  {
    BeginNotBefore(v, c);
    hide Pass, NextStep, StartsAt;
    var left, rest := v[c..begin], Pass(v, end);
    NoBeginInFront(left, rest, k);
    if k + |BEGIN| <= |left| {
      PartOfPart(v, c, begin, k, k + |BEGIN|);
      SameWord(v, c, begin, k);
    }
  }

  lemma BeginNotBefore(v: string, c: nat)
    requires c <= |v| && NextStep(v, c).Block?
    ensures forall k :: c <= k < NextStep(v, c).begin ==> !StartsAt(v, k, BEGIN)
  {
    hide HeaderEnd, LABELS;
  }

  lemma SameWord(v: string, c: nat, begin: nat, k: nat)
    requires c <= begin <= |v| && k + |BEGIN| <= begin - c
    ensures StartsAt(v[c..begin], k, BEGIN) ==> StartsAt(v, c + k, BEGIN)
  {
    PartOfPart(v, c, begin, k, k + |BEGIN|);
  }

  lemma NoBeginInFront(left: string, rest: string, k: nat)
    requires k < |left| + |REDACTED|
    ensures StartsAt(left + REDACTED + rest, k, BEGIN) ==> k + |BEGIN| <= |left| && StartsAt(left, k, BEGIN)
  {
    var out := left + REDACTED + rest;
    BeforeRedacted(left, rest);
    if k + |BEGIN| <= |left| {
      assert out[k..k + |BEGIN|] == left[k..k + |BEGIN|];
    } else if k < |left| {
      CharacterOf(out, k, BEGIN, |left| - k);
    } else {
      assert out[k] == REDACTED[k - |left|];
      CharacterOf(out, k, BEGIN, 0);
    }
  }

  /** Without an open marker before a block, the pass from the cursor on changes nothing in what it put out. */
  lemma {:induction false} MirrorPass(v: string, c: nat)
    requires c <= |v| && !OpenBlock(v, c)
    ensures Pass(Pass(v, c), 0) == Pass(v, c)
    decreases |v| - c
  {
    hide NextStep, Pass, RunsOn;
    PassIs(v, c);
    var out := Pass(v, c);
    match NextStep(v, c) {
      case Finish =>
        PassShifts(v, c, 0);
      case Skip(next) =>
        MirrorPass(v, next);
        SkipMirrored(v, c, next);
        assert out == Output(v, c, next);
        PassIs(out, 0);
        assert out[next - c..] == Pass(v, next) && out[0..next - c] == v[c..next];
        PassShifts(out, next - c, 0);
      case Block(begin, end) =>
        MirrorPass(v, end);
        var k := begin - c + |REDACTED|;
        forall i | 0 <= i < k ensures !StartsAt(out, i, BEGIN) { NoBeginUpToBlock(v, c, begin, end, i); }
        PassLater(out, 0, k);
        assert out[k..] == Pass(v, end) && out == out[0..k] + out[k..];
        PassShifts(out, k, 0);
    }
  }

  /** The pass is idempotent on every text in which no open begin marker runs into a block. */
  lemma IdempotentWithoutOpenBlock(v: string)
    requires !OpenBlock(v, 0)
    ensures RedactBlocks(RedactBlocks(v)) == RedactBlocks(v)
  {
    hide OpenBlock, Pass;
    MirrorPass(v, 0);
    PassIsRedact(v);
    PassIsRedact(RedactBlocks(v));
  }
}
