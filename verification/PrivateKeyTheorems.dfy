/**
 The private key pass replaces disjoint blocks, from a recognised header to its first footer.
 Where no six hyphens stand in a row, nothing is left for a second pass.
*/
module PrivateKeyTheorems {
  import opened Options
  import opened Redaction
  import opened PrivateKeys

  // ---- Recognised headers ----

  /** A begin marker that the header scan accepts, with a known label. */
  predicate Headed(v: string, b: nat) {
    && b <= |v| && StartsAt(v, b, BEGIN)
    && var r := HeaderEnd(v, b + |BEGIN|);
       r.Ended? && v[b + |BEGIN|..r.at] in LABELS
  }

  ghost predicate NoHeader(v: string) {
    forall b :: 0 <= b <= |v| ==> !Headed(v, b)
  }

  /** The whole text of a header, up to its closing hyphens. */
  function HeaderText(name: string): (text: string)
    ensures |text| == |BEGIN| + |name| + |MARKER_END|
  {
    BEGIN + name + MARKER_END
  }

  predicate LabelCharacter(c: char) { 'A' <= c <= 'Z' || c == ' ' }

  lemma LabelText(name: string)
    requires name in LABELS
    ensures forall k :: 0 <= k < |name| ==> LabelCharacter(name[k])
  {
  }

  /** A character that neither begins a marker nor ends a line. */
  predicate Plain(c: char) { c != '-' && c != '\\' && !IsNewline(c) }

  lemma {:induction false} LabelScanned(v: string, i: nat, h: nat)
    requires i <= h && StartsAt(v, h, MARKER_END) && !StartsAt(v, h, BEGIN)
    requires forall k :: i <= k < h ==> Plain(v[k])
    ensures HeaderEnd(v, i) == Ended(h)
    decreases h - i
  {
    if i < h {
      NotAtLabel(v, i);
      LabelScanned(v, i + 1, h);
    }
  }

  lemma CharacterOf(v: string, i: nat, word: string, k: nat)
    requires k < |word|
    ensures StartsAt(v, i, word) ==> v[i + k] == word[k]
  {
    if StartsAt(v, i, word) {
      assert v[i..i + |word|][k] == v[i + k];
    }
  }

  lemma NotAtLabel(v: string, i: nat)
    requires i < |v| && Plain(v[i])
    ensures !StartsAt(v, i, BEGIN) && !StartsAt(v, i, MARKER_END)
  {
    CharacterOf(v, i, BEGIN, 0);
    CharacterOf(v, i, MARKER_END, 0);
  }

  lemma PartOfPart(s: string, a: nat, b: nat, x: nat, y: nat)
    requires a <= b <= |s| && x <= y <= b - a
    ensures s[a..b][x..y] == s[a + x..a + y]
  {
    assert forall k :: 0 <= k < y - x ==> s[a..b][x..y][k] == s[a + x..a + y][k];
  }

  lemma TextIsHeader(v: string, b: nat, name: string)
    requires name in LABELS && StartsAt(v, b, HeaderText(name)) && !StartsAt(v, b + |BEGIN| + |name|, BEGIN)
    ensures Headed(v, b) && HeaderEnd(v, b + |BEGIN|) == Ended(b + |BEGIN| + |name|)
  {
    hide HeaderEnd, LABELS;
    var text := HeaderText(name);
    var h := b + |BEGIN| + |name|;
    LabelText(name);
    PartOfPart(v, b, b + |text|, 0, |BEGIN|);
    PartOfPart(v, b, b + |text|, |BEGIN|, |BEGIN| + |name|);
    PartOfPart(v, b, b + |text|, |BEGIN| + |name|, |text|);
    assert text[0..|BEGIN|] == BEGIN && text[|BEGIN|..|BEGIN| + |name|] == name;
    assert text[|BEGIN| + |name|..|text|] == MARKER_END;
    forall k | b + |BEGIN| <= k < h ensures Plain(v[k]) {
      assert v[k] == name[k - b - |BEGIN|];
    }
    LabelScanned(v, b + |BEGIN|, h);
  }

  lemma HeaderIsText(v: string, b: nat) returns (name: string)
    requires Headed(v, b)
    ensures name in LABELS && StartsAt(v, b, HeaderText(name))
    ensures !StartsAt(v, b + |BEGIN| + |name|, BEGIN)
    ensures HeaderEnd(v, b + |BEGIN|) == Ended(b + |BEGIN| + |name|)
  {
    hide HeaderEnd, LABELS;
    var h := HeaderEnd(v, b + |BEGIN|).at;
    name := v[b + |BEGIN|..h];
    assert v[b..h + |MARKER_END|] == v[b..b + |BEGIN|] + name + v[h..h + |MARKER_END|];
  }

  lemma InThreeParts(a: string, b: string, c: string, k: nat)
    requires k < |a| + |b|
    ensures (a + b + c)[k] == if k < |a| then a[k] else b[k - |a|]
  {
  }

  /** A header holds no brackets. */
  lemma HeaderCharacters(name: string, k: nat)
    requires name in LABELS && k < |HeaderText(name)|
    ensures HeaderText(name)[k] != '[' && HeaderText(name)[k] != ']'
  {
    LabelText(name);
    hide LABELS;
    if k < |BEGIN| + |name| {
      InThreeParts(BEGIN, name, MARKER_END, k);
    } else {
      assert HeaderText(name)[k] == MARKER_END[k - |BEGIN| - |name|];
    }
  }

  lemma BeginOnlyAtStart(v: string, i: nat, k: nat)
    requires StartsAt(v, i, BEGIN) && k < |v| && (i + 5 <= k < i + |BEGIN|)
    ensures v[k] != '-'
  {
    assert v[k] == v[i..i + |BEGIN|][k - i] == BEGIN[k - i];
  }

  lemma NoBeginInsideBegin(v: string, i: nat, k: nat)
    requires StartsAt(v, i, BEGIN) && i < k < i + |BEGIN|
    ensures !StartsAt(v, k, BEGIN)
  {
    if k < i + 5 {
      CharacterOf(v, k, BEGIN, i + 4 - k);
      CharacterOf(v, k, BEGIN, i + 5 - k);
      BeginOnlyAtStart(v, i, i + 5);
    } else {
      CharacterOf(v, k, BEGIN, 0);
      BeginOnlyAtStart(v, i, k);
    }
  }

  // ---- What a step passes over ----

  ghost predicate NoSixHyphens(v: string) {
    forall k :: 0 <= k <= |v| ==> !StartsAt(v, k, "------")
  }

  lemma SixHyphens(v: string, h: nat, k: nat)
    requires StartsAt(v, h, MARKER_END) && StartsAt(v, k, BEGIN) && h < k < h + |MARKER_END|
    ensures StartsAt(v, h, "------")
  {
    CharacterOf(v, k, BEGIN, h + 5 - k);
    assert v[h..h + 6] == v[h..h + 5] + [v[h + 5]];
  }

  /**
   A skip passes over a recognised header in one way only: behind a label that is not known,
   where the closing hyphens run together with those of the header.
  */
  lemma SkipPassesHeader(v: string, c: nat, b: nat)
    requires c <= |v| && NextStep(v, c).Skip? && c <= b < NextStep(v, c).next && Headed(v, b)
    ensures var begin := Find(v, BEGIN, c);
            var h := NextStep(v, c).next - |MARKER_END|;
            && begin.Some? && HeaderEnd(v, begin.value + |BEGIN|) == Ended(h)
            && v[begin.value + |BEGIN|..h] !in LABELS
            && h < b < h + |MARKER_END| && StartsAt(v, h, "------")
  {
    hide HeaderEnd, LABELS, Find;
    var begin := Find(v, BEGIN, c).value;
    if begin < b < begin + |BEGIN| {
      NoBeginInsideBegin(v, begin, b);
    } else if b > begin {
      var r := HeaderEnd(v, begin + |BEGIN|);
      if r.Ended? && b > r.at {
        SixHyphens(v, r.at, b);
      }
    }
  }

  // ---- What the output holds ----

  lemma Carried(w: string, v: string, low: nat, n: nat, x: nat, y: nat)
    requires low <= n <= |v| && n - low <= |w| && w[..n - low] == v[low..n] && x <= y <= n - low
    ensures w[x..y] == v[low + x..low + y]
  {
    PartOfPart(w, 0, n - low, x, y);
    PartOfPart(v, low, n, x, y);
    assert w[0..n - low] == w[..n - low];
  }

  lemma StartsInSuffix(w: string, low: nat, i: nat, word: string)
    requires low <= |w|
    ensures StartsAt(w[low..], i, word) <==> StartsAt(w, low + i, word)
  {
    if low + i + |word| <= |w| {
      assert w[low..][i..i + |word|] == w[low + i..low + i + |word|];
    }
  }

  /** Text carried over from `v` shows no header that `v` does not have. */
  lemma HeaderCarried(w: string, b: nat, name: string, v: string, low: nat, n: nat)
    requires name in LABELS && StartsAt(w, b, HeaderText(name)) && !StartsAt(w, b + |BEGIN| + |name|, BEGIN)
    requires low <= n <= |v| && n - low <= |w| && w[..n - low] == v[low..n]
    requires b + |HeaderText(name)| <= n - low && (n < |v| ==> v[n] == '-')
    ensures Headed(v, low + b) && HeaderEnd(v, low + b + |BEGIN|) == Ended(low + b + |BEGIN| + |name|)
  {
    hide LABELS, Headed, HeaderEnd;
    var text := HeaderText(name);
    Carried(w, v, low, n, b, b + |text|);
    var h := b + |BEGIN| + |name|;
    if low + h + |BEGIN| <= n {
      Carried(w, v, low, n, h, h + |BEGIN|);
    } else if StartsAt(v, low + h, BEGIN) {
      BeginOnlyAtStart(v, low + h, n);
    }
    TextIsHeader(v, low + b, name);
  }

  /** The header in `left + REDACTED + rest` lies in one of the two parts. */
  lemma HeaderBesideRedacted(left: string, rest: string, b: nat, name: string)
    requires name in LABELS && StartsAt(left + REDACTED + rest, b, HeaderText(name))
    ensures b + |HeaderText(name)| <= |left| || b >= |left| + |REDACTED|
  {
    hide LABELS;
    var w := left + REDACTED + rest;
    var text := HeaderText(name);
    assert w[|left|] == REDACTED[0] == '[';
    if |left| <= b < |left| + |REDACTED| {
      assert w[b] == REDACTED[b - |left|];
      CharacterOf(w, b, text, 0);
    } else if b < |left| < b + |text| {
      CharacterOf(w, b, text, |left| - b);
      HeaderCharacters(name, |left| - b);
    }
  }

  lemma HeaderInSuffix(w: string, low: nat, b: nat)
    requires low <= b <= |w| && Headed(w, b)
    ensures Headed(w[low..], b - low)
  {
    hide LABELS, Headed;
    var name := HeaderIsText(w, b);
    StartsInSuffix(w, low, b - low, HeaderText(name));
    StartsInSuffix(w, low, b - low + |BEGIN| + |name|, BEGIN);
    TextIsHeader(w[low..], b - low, name);
  }

  lemma Regrouped(v: string, low: nat, c: nat, n: nat, rest: string)
    requires low <= c <= n <= |v|
    ensures v[low..c] + (v[c..n] + rest) == v[low..n] + rest
  {
    assert v[low..n] == v[low..c] + v[c..n];
  }

  lemma BlockIsHeaded(v: string, c: nat)
    requires c <= |v| && NextStep(v, c).Block?
    ensures Headed(v, NextStep(v, c).begin) && NextStep(v, c).begin + |BEGIN| <= |v|
  {
    hide LABELS, HeaderEnd, Find;
  }

  // ---- What is replaced ----

  datatype Span = Span(begin: nat, end: nat)

  /** A block ends at the first footer from `behind` on, or with the text. */
  predicate EndsBlock(v: string, behind: nat, footer: string, end: nat)
    requires end <= |v|
  {
    || (end == |v| && forall k :: behind <= k <= |v| ==> !StartsAt(v, k, footer))
    || (behind + |footer| <= end && StartsAt(v, end - |footer|, footer)
        && forall k :: behind <= k < end - |footer| ==> !StartsAt(v, k, footer))
  }

  /** A block: a recognised header, and the text up to its first matching footer or the end. */
  predicate IsBlock(v: string, p: Span) {
    && Headed(v, p.begin) && p.begin < p.end <= |v|
    && var h := HeaderEnd(v, p.begin + |BEGIN|).at;
       EndsBlock(v, h + |MARKER_END|, Footer(v[p.begin + |BEGIN|..h]), p.end)
  }

  predicate InOrder(low: nat, spans: seq<Span>, high: nat)
    decreases |spans|
  {
    spans != [] ==> low <= spans[0].begin < spans[0].end <= high && InOrder(spans[0].end, spans[1..], high)
  }

  function Spliced(v: string, low: nat, spans: seq<Span>): string
    requires low <= |v| && InOrder(low, spans, |v|)
    decreases |spans|
  {
    if spans == [] then v[low..]
    else v[low..spans[0].begin] + REDACTED + Spliced(v, spans[0].end, spans[1..])
  }

  function FirstFooterEnd(v: string, behind: nat, footer: string): (end: nat)
    requires behind <= |v| && footer != ""
    ensures end <= |v|
  {
    match Find(v, footer, behind)
    case None => |v|
    case Some(f) => f + |footer|
  }

  lemma FooterEnds(v: string, behind: nat, footer: string)
    requires behind <= |v| && footer != ""
    ensures EndsBlock(v, behind, footer, FirstFooterEnd(v, behind, footer))
  {
    hide Find;
  }

  lemma BlockStep(v: string, c: nat, h: nat)
    requires c <= |v| && NextStep(v, c).Block? && h == HeaderEnd(v, NextStep(v, c).begin + |BEGIN|).at
    ensures h + |MARKER_END| <= |v|
    ensures NextStep(v, c).end
         == FirstFooterEnd(v, h + |MARKER_END|, Footer(v[NextStep(v, c).begin + |BEGIN|..h]))
  {
    hide LABELS, HeaderEnd, Find, Footer, StartsAt;
  }

  lemma StepTakesBlock(v: string, c: nat)
    requires c <= |v| && NextStep(v, c).Block?
    ensures var s := NextStep(v, c);
            IsBlock(v, Span(s.begin, s.end))
  {
    hide *;
    BlockIsHeaded(v, c);
    var begin, end := NextStep(v, c).begin, NextStep(v, c).end;
    var h := HeaderEnd(v, begin + |BEGIN|).at;
    BlockStep(v, c, h);
    var footer := Footer(v[begin + |BEGIN|..h]);
    FooterEnds(v, h + |MARKER_END|, footer);
    BlockHolds(v, begin, h, end);
  }

  lemma BlockHolds(v: string, begin: nat, h: nat, end: nat)
    requires Headed(v, begin) && begin < end <= |v| && begin + |BEGIN| <= |v|
    requires h == HeaderEnd(v, begin + |BEGIN|).at
    requires EndsBlock(v, h + |MARKER_END|, Footer(v[begin + |BEGIN|..h]), end)
    ensures IsBlock(v, Span(begin, end))
  {
    hide LABELS, HeaderEnd, EndsBlock, Footer;
  }

  /** The spans the pass replaces from `cursor` on. */
  function BlockSpans(v: string, cursor: nat): seq<Span>
    requires cursor <= |v|
    decreases |v| - cursor
  {
    match NextStep(v, cursor)
    case Finish => []
    case Skip(next) => BlockSpans(v, next)
    case Block(begin, end) => [Span(begin, end)] + BlockSpans(v, end)
  }

  lemma {:induction false} PassReplacesBlocks(v: string, c: nat)
    requires c <= |v|
    ensures InOrder(c, BlockSpans(v, c), |v|) && (forall p <- BlockSpans(v, c) :: IsBlock(v, p))
    ensures Pass(v, c) == Spliced(v, c, BlockSpans(v, c))
    decreases |v| - c
  {
    hide NextStep, IsBlock;
    match NextStep(v, c) {
      case Finish =>
      case Skip(next) =>
        PassReplacesBlocks(v, next);
        LowerSplice(v, c, next, BlockSpans(v, next));
      case Block(begin, end) =>
        StepTakesBlock(v, c);
        PassReplacesBlocks(v, end);
        assert BlockSpans(v, c)[1..] == BlockSpans(v, end);
    }
  }

  lemma LowerSplice(v: string, i: nat, n: nat, spans: seq<Span>)
    requires i <= n <= |v| && InOrder(n, spans, |v|)
    ensures InOrder(i, spans, |v|) && v[i..n] + Spliced(v, n, spans) == Spliced(v, i, spans)
  {
    if spans == [] {
      assert v[i..n] + v[n..] == v[i..];
    } else {
      SliceJoined(v, i, n, spans[0].begin, Spliced(v, spans[0].end, spans[1..]));
    }
  }

  lemma SliceJoined(v: string, i: nat, n: nat, s: nat, rest: string)
    requires i <= n <= s <= |v|
    ensures v[i..n] + (v[n..s] + REDACTED + rest) == v[i..s] + REDACTED + rest
  {
    Regrouped(v, i, n, s, REDACTED + rest);
    assert v[n..s] + REDACTED + rest == v[n..s] + (REDACTED + rest);
  }

  /** For every text the output is the text with disjoint blocks replaced, in order. */
  lemma PassReplacesExactlyBlocks(v: string)
    ensures var spans := BlockSpans(v, 0);
            && InOrder(0, spans, |v|) && (forall p <- spans :: IsBlock(v, p))
            && RedactBlocks(v) == Spliced(v, 0, spans)
  {
    PassReplacesBlocks(v, 0);
  }
}
