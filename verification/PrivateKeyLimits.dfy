/**
 When exactly the private key pass leaves a recognised header in its output, when exactly
 a pass is the identity, and how a second pass can still change the output of the first.
*/
module PrivateKeyLimits {
  import opened Options
  import opened Redaction
  import opened PrivateKeys
  import opened PrivateKeyTheorems

  // ---- Headers that survive ----

  /** Behind the closing hyphens of the header at `b`. */
  function HeaderStop(v: string, b: nat): (r: nat)
    requires Headed(v, b)
    ensures b < r <= |v|
  {
    HeaderEnd(v, b + |BEGIN|).at + |MARKER_END|
  }

  predicate Meets(p: Span, b: nat, e: nat) { p.begin < e && b < p.end }

  predicate MeetsAny(spans: seq<Span>, b: nat, e: nat) { exists p <- spans :: Meets(p, b, e) }

  /** The header at `b` meets none of the spans. */
  predicate Survives(v: string, spans: seq<Span>, b: nat) {
    Headed(v, b) && !MeetsAny(spans, b, HeaderStop(v, b))
  }

  lemma StopOf(v: string, b: nat, name: string)
    requires Headed(v, b) && HeaderEnd(v, b + |BEGIN|) == Ended(b + |BEGIN| + |name|)
    ensures HeaderStop(v, b) == b + |HeaderText(name)|
  {
    hide LABELS, HeaderEnd;
  }

  /** A header of `rest` is one of the text that ends with it. */
  lemma HeaderOfSuffix(w: string, low: nat, b: nat)
    requires low <= |w| && b <= |w| - low && Headed(w[low..], b)
    ensures Headed(w, low + b)
  {
    hide LABELS, Headed;
    var name := HeaderIsText(w[low..], b);
    StartsInSuffix(w, low, b, HeaderText(name));
    StartsInSuffix(w, low, b + |BEGIN| + |name|, BEGIN);
    TextIsHeader(w, low + b, name);
  }

  /** A header that ends before a block is in the output too. */
  lemma HeaderKept(v: string, low: nat, begin: nat, b: nat, rest: string)
    requires low <= b <= begin <= |v| && Headed(v, b) && HeaderStop(v, b) <= begin
    ensures Headed(v[low..begin] + REDACTED + rest, b - low)
  {
    hide LABELS, Headed, HeaderStop, HeaderEnd, HeaderText;
    var name := HeaderIsText(v, b);
    StopOf(v, b, name);
    var left := v[low..begin];
    var w := left + REDACTED + rest;
    BeforeRedacted(left, rest);
    Carried(w, v, low, begin, b - low, b - low + |HeaderText(name)|);
    var h := b - low + |BEGIN| + |name|;
    if h + |BEGIN| <= begin - low {
      Carried(w, v, low, begin, h, h + |BEGIN|);
    } else {
      CharacterOf(w, h, BEGIN, |left| - h);
    }
    TextIsHeader(w, b - low, name);
  }

  lemma BeforeRedacted(left: string, rest: string)
    ensures var w := left + REDACTED + rest;
            |left| < |w| && w[..|left|] == left && w[|left|] == '['
  {
  }

  lemma FinishShows(v: string, low: nat, c: nat)
    requires low <= c <= |v| && NextStep(v, c).Finish?
    ensures NoHeader(v[low..c] + v[c..]) <==> forall b :: low <= b <= |v| ==> !Headed(v, b)
  {
    hide LABELS, Headed;
    var w := v[low..];
    assert v[low..c] + v[c..] == w;
    if b :| 0 <= b <= |w| && Headed(w, b) {
      HeaderOfSuffix(v, low, b);
    }
    if b :| low <= b <= |v| && Headed(v, b) {
      HeaderInSuffix(v, low, b);
      assert Headed(w, b - low);
    }
  }

  /** What the text before and behind a block shows, one header at a time. */
  lemma BlockShows(v: string, low: nat, c: nat, begin: nat, end: nat)
    requires low <= c <= |v| && NextStep(v, c) == Block(begin, end)
    ensures NoHeader(v[low..begin] + REDACTED + Pass(v, end))
            <==> NoHeader(Pass(v, end)) && forall b :: low <= b <= |v| && Headed(v, b) ==> HeaderStop(v, b) > begin
  {
    hide LABELS, Headed, Pass, HeaderStop;
    var left, rest := v[low..begin], Pass(v, end);
    var w := left + REDACTED + rest;
    var n := |left| + |REDACTED|;
    assert w[n..] == rest && |w| == n + |rest|;
    if b :| 0 <= b <= |rest| && Headed(rest, b) {
      HeaderOfSuffix(w, n, b);
      assert Headed(w, n + b);
    }
    if b :| low <= b <= |v| && Headed(v, b) && HeaderStop(v, b) <= begin {
      HeaderKept(v, low, begin, b, rest);
      assert Headed(w, b - low);
    }
    if x :| 0 <= x <= |w| && Headed(w, x) {
      HeaderBefore(v, low, c, begin, end, x);
    }
  }

  lemma HeadedBegins(v: string, b: nat)
    requires Headed(v, b)
    ensures b < |v| && v[b] == '-'
  {
    hide LABELS, HeaderEnd;
    CharacterOf(v, b, BEGIN, 0);
  }

  lemma HeaderBehind(left: string, rest: string, x: nat)
    requires x >= |left| + |REDACTED| && Headed(left + REDACTED + rest, x)
    ensures !NoHeader(rest)
  {
    hide LABELS, Headed;
    var n := |left| + |REDACTED|;
    var w := left + REDACTED + rest;
    HeadedBegins(w, x);
    assert w[n..] == rest;
    HeaderInSuffix(w, n, x);
    assert Headed(rest, x - n);
  }

  lemma HeaderInFront(v: string, low: nat, begin: nat, rest: string, x: nat, name: string)
    requires low <= begin < |v| && v[begin] == '-' && name in LABELS
    requires var w := v[low..begin] + REDACTED + rest;
             StartsAt(w, x, HeaderText(name)) && !StartsAt(w, x + |BEGIN| + |name|, BEGIN)
    requires x + |HeaderText(name)| <= begin - low
    ensures Headed(v, low + x) && HeaderStop(v, low + x) <= begin
  {
    hide LABELS, Headed, HeaderStop, HeaderEnd, StartsAt, HeaderText;
    BeforeRedacted(v[low..begin], rest);
    HeaderCarried(v[low..begin] + REDACTED + rest, x, name, v, low, begin);
    StopOf(v, low + x, name);
  }

  lemma HeaderBefore(v: string, low: nat, c: nat, begin: nat, end: nat, x: nat)
    requires low <= c <= |v| && NextStep(v, c) == Block(begin, end)
    requires Headed(v[low..begin] + REDACTED + Pass(v, end), x)
    ensures !NoHeader(Pass(v, end)) || exists b :: low <= b <= |v| && Headed(v, b) && HeaderStop(v, b) <= begin
  {
    hide LABELS, Headed, Pass, HeaderStop, NextStep, HeaderEnd, NoHeader, StartsAt, HeaderText;
    BlockIsHeaded(v, c);
    HeadedBegins(v, begin);
    var left, rest := v[low..begin], Pass(v, end);
    var name := HeaderIsText(left + REDACTED + rest, x);
    HeaderBesideRedacted(left, rest, x, name);
    if x >= |left| + |REDACTED| {
      HeaderBehind(left, rest, x);
    } else {
      HeaderInFront(v, low, begin, rest, x, name);
    }
  }

  lemma MeetsFirst(first: Span, rest: seq<Span>, b: nat, e: nat)
    ensures MeetsAny([first] + rest, b, e) <==> Meets(first, b, e) || MeetsAny(rest, b, e)
  {
    var all := [first] + rest;
    if Meets(first, b, e) { assert all[0] == first; }
    if MeetsAny(rest, b, e) {
      var p :| p in rest && Meets(p, b, e);
      assert p in all;
    }
  }

  lemma {:induction false} SpansLieBehind(spans: seq<Span>, low: nat, high: nat)
    requires InOrder(low, spans, high)
    ensures forall p <- spans :: low <= p.begin
    decreases |spans|
  {
    if spans != [] {
      SpansLieBehind(spans[1..], spans[0].end, high);
      assert spans == [spans[0]] + spans[1..];
    }
  }

  /** Which headers survive, seen from before and from behind a block. */
  lemma SurvivorsAtBlock(v: string, c: nat, begin: nat, end: nat, b: nat)
    requires c <= |v| && NextStep(v, c) == Block(begin, end) && Headed(v, b)
    ensures Survives(v, BlockSpans(v, c), b)
            <==> HeaderStop(v, b) <= begin || (b >= end && Survives(v, BlockSpans(v, end), b))
  {
    hide LABELS, Headed, HeaderStop, MeetsAny, NextStep;
    var e := HeaderStop(v, b);
    var rest := BlockSpans(v, end);
    MeetsFirst(Span(begin, end), rest, b, e);
    assert BlockSpans(v, c) == [Span(begin, end)] + rest;
    if e <= begin {
      PassReplacesBlocks(v, end);
      SpansLieBehind(rest, end, |v|);
      NoneMet(rest, b, e);
    }
  }

  lemma NoneMet(spans: seq<Span>, b: nat, e: nat)
    requires forall p <- spans :: e <= p.begin
    ensures !MeetsAny(spans, b, e)
  {
  }

  /** No header from `low` on survives the blocks replaced from `c` on. */
  ghost predicate NoneSurvives(v: string, low: nat, c: nat)
    requires c <= |v|
  {
    forall b :: low <= b <= |v| && Headed(v, b) ==> !Survives(v, BlockSpans(v, c), b)
  }

  lemma {:induction false} ShowsExactly(v: string, low: nat, c: nat)
    requires low <= c <= |v|
    ensures NoHeader(v[low..c] + Pass(v, c)) <==> NoneSurvives(v, low, c)
    decreases |v| - c
  {
    hide LABELS, NextStep, Headed, HeaderStop, Survives, NoHeader;
    match NextStep(v, c) {
      case Finish =>
        FinishShows(v, low, c);
        forall b | low <= b <= |v| && Headed(v, b) ensures Survives(v, BlockSpans(v, c), b) { SurvivesNothing(v, b); }
      case Skip(next) =>
        ShowsExactly(v, low, next);
        Regrouped(v, low, c, next, Pass(v, next));
      case Block(begin, end) =>
        ShowsExactly(v, end, end);
        assert v[end..end] + Pass(v, end) == Pass(v, end);
        Regrouped(v, low, c, begin, REDACTED + Pass(v, end));
        assert v[c..begin] + REDACTED + Pass(v, end) == v[c..begin] + (REDACTED + Pass(v, end));
        assert v[low..begin] + REDACTED + Pass(v, end) == v[low..begin] + (REDACTED + Pass(v, end));
        BlockShows(v, low, c, begin, end);
        forall b | low <= b <= |v| && Headed(v, b)
          ensures Survives(v, BlockSpans(v, c), b)
                  <==> HeaderStop(v, b) <= begin || (b >= end && Survives(v, BlockSpans(v, end), b))
        {
          SurvivorsAtBlock(v, c, begin, end, b);
        }
    }
  }

  lemma SurvivesNothing(v: string, b: nat)
    requires Headed(v, b)
    ensures Survives(v, [], b)
  {
  }

  /** The output shows no recognised header exactly when every header of the text meets a replaced block. */
  lemma OutputShowsNoHeaderExactly(v: string)
    ensures NoHeader(RedactBlocks(v))
            <==> forall b :: 0 <= b <= |v| && Headed(v, b) ==> MeetsAny(BlockSpans(v, 0), b, HeaderStop(v, b))
  {
    hide Headed, Pass, HeaderStop, MeetsAny, BlockSpans, NoHeader;
    ShowsExactly(v, 0, 0);
    assert v[0..0] + RedactBlocks(v) == RedactBlocks(v);
  }

  // ---- When a pass is the identity ----

  /** Some skip of the pass from `cursor` on goes past the index. */
  predicate SteppedOver(v: string, cursor: nat, b: nat)
    requires cursor <= |v|
    decreases |v| - cursor
  {
    match NextStep(v, cursor)
    case Finish => false
    case Skip(next) => cursor <= b < next || SteppedOver(v, next, b)
    case Block(_, end) => SteppedOver(v, end, b)
  }

  lemma {:induction false} SteppedOverBehind(v: string, c: nat, b: nat)
    requires c <= |v| && SteppedOver(v, c, b)
    ensures c <= b
    decreases |v| - c
  {
    hide NextStep;
    match NextStep(v, c) {
      case Skip(next) => if !(c <= b < next) { SteppedOverBehind(v, next, b); }
      case Block(_, end) => SteppedOverBehind(v, end, b);
    }
  }

  /** Every recognised header from the cursor on is stepped over. */
  ghost predicate AllSteppedOver(v: string, c: nat)
    requires c <= |v|
  {
    forall b :: c <= b <= |v| && Headed(v, b) ==> SteppedOver(v, c, b)
  }

  /** A block is longer than what replaces it. */
  lemma BlockShrinks(v: string, c: nat)
    requires c <= |v| && NextStep(v, c).Block?
    ensures NextStep(v, c).end - NextStep(v, c).begin > |REDACTED|
  {
    StepTakesBlock(v, c);
    hide NextStep, LABELS, HeaderEnd, Find, Footer, StartsAt;
    assert |REDACTED| == 10;
  }

  lemma {:induction false} PassNeverGrows(v: string, c: nat)
    requires c <= |v|
    ensures |Pass(v, c)| <= |v| - c
    decreases |v| - c
  {
    hide NextStep;
    match NextStep(v, c) {
      case Finish =>
      case Skip(next) => PassNeverGrows(v, next);
      case Block(begin, end) =>
        PassNeverGrows(v, end);
        BlockShrinks(v, c);
    }
  }

  lemma NoHeaderBeforeStep(v: string, c: nat, b: nat)
    requires c <= |v| && c <= b
    requires NextStep(v, c).Finish? || (NextStep(v, c).Block? && b < NextStep(v, c).begin)
    ensures !Headed(v, b)
  {
    hide HeaderEnd, LABELS;
  }

  /** A pass is the identity exactly when every recognised header is stepped over. */
  lemma {:induction false} IdentityExactly(v: string, c: nat)
    requires c <= |v|
    ensures Pass(v, c) == v[c..] <==> AllSteppedOver(v, c)
    decreases |v| - c
  {
    hide NextStep, Headed;
    match NextStep(v, c) {
      case Finish =>
        forall b | c <= b <= |v| ensures !Headed(v, b) { NoHeaderBeforeStep(v, c, b); }
      case Skip(next) =>
        IdentityExactly(v, next);
        assert v[c..] == v[c..next] + v[next..];
        assert (v[c..next] + Pass(v, next))[next - c..] == Pass(v, next);
        assert v[c..][next - c..] == v[next..];
        forall b | next <= b <= |v| && Headed(v, b)
          ensures SteppedOver(v, c, b) <==> SteppedOver(v, next, b) {}
      case Block(begin, end) =>
        PassNeverGrows(v, end);
        BlockShrinks(v, c);
        BlockIsHeaded(v, c);
        if SteppedOver(v, c, begin) { SteppedOverBehind(v, end, begin); }
    }
  }

  /** A second pass changes nothing exactly when it steps over every header the first one left standing. */
  lemma IdempotentExactly(v: string)
    ensures var w := RedactBlocks(v);
            RedactBlocks(w) == w <==> forall b :: 0 <= b <= |w| && Headed(w, b) ==> SteppedOver(w, 0, b)
  {
    hide Headed, Pass, SteppedOver;
    var w := RedactBlocks(v);
    IdentityExactly(w, 0);
    assert w[0..] == w;
  }

  // ---- Without six hyphens in a row ----

  lemma {:induction false} SurvivorSteppedOver(v: string, c: nat, b: nat)
    requires c <= b <= |v| && Survives(v, BlockSpans(v, c), b)
    ensures SteppedOver(v, c, b)
    decreases |v| - c
  {
    hide NextStep, Headed, HeaderStop, MeetsAny;
    match NextStep(v, c) {
      case Finish => NoHeaderBeforeStep(v, c, b);
      case Skip(next) => if b >= next { SurvivorSteppedOver(v, next, b); }
      case Block(begin, end) =>
        SurvivorsAtBlock(v, c, begin, end, b);
        if b < begin { NoHeaderBeforeStep(v, c, b); } else { SurvivorSteppedOver(v, end, b); }
    }
  }

  lemma {:induction false} SteppedOverNeedsSix(v: string, c: nat, b: nat)
    requires c <= |v| && Headed(v, b) && SteppedOver(v, c, b)
    ensures !NoSixHyphens(v)
    decreases |v| - c
  {
    hide NextStep, Headed, Find, HeaderEnd, LABELS;
    match NextStep(v, c) {
      case Skip(next) =>
        if c <= b < next { SkipPassesHeader(v, c, b); } else { SteppedOverNeedsSix(v, next, b); }
      case Block(_, end) => SteppedOverNeedsSix(v, end, b);
    }
  }

  /** Without six hyphens in a row the output shows no recognised header, and a second pass changes nothing. */
  lemma SecondPassChangesNothing(v: string)
    requires NoSixHyphens(v)
    ensures NoHeader(RedactBlocks(v))
    ensures RedactBlocks(RedactBlocks(v)) == RedactBlocks(v)
  {
    hide *;
    forall b | 0 <= b <= |v| && Headed(v, b) ensures MeetsAny(BlockSpans(v, 0), b, HeaderStop(v, b)) {
      if !MeetsAny(BlockSpans(v, 0), b, HeaderStop(v, b)) {
        SurvivesMeans(v, b);
        SurvivorSteppedOver(v, 0, b);
        SteppedOverNeedsSix(v, 0, b);
      }
    }
    OutputShowsNoHeaderExactly(v);
    IdempotentExactly(v);
    NoHeaderMeans(RedactBlocks(v));
  }

  lemma SurvivesMeans(v: string, b: nat)
    requires Headed(v, b) && !MeetsAny(BlockSpans(v, 0), b, HeaderStop(v, b))
    ensures Survives(v, BlockSpans(v, 0), b)
  {
  }

  lemma NoHeaderMeans(v: string)
    requires NoHeader(v)
    ensures forall b :: 0 <= b <= |v| ==> !Headed(v, b)
  {
  }
}
