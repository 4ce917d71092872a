/**
 Private key blocks, said of the text alone: which lines are headers, where a header scan
 stops, and which text a block takes.
*/
module KeyBlocks {
  import opened Options
  import opened Redaction
  import opened PrivateKeys
  import opened PrivateKeyTheorems

  const KINDS: seq<string> := ["", "RSA ", "EC ", "DSA ", "OPENSSH ", "ENCRYPTED "]

  predicate At(v: string, i: nat, word: string) { i + |word| <= |v| && v[i..i + |word|] == word }

  function HeaderOf(kind: string): string { "-----BEGIN " + (kind + "PRIVATE KEY") + "-----" }

  function FooterOf(kind: string): string { "-----END " + (kind + "PRIVATE KEY") + "-----" }

  /** The header of a kind stands at `b`, and its closing hyphens do not begin another one. */
  predicate HeaderAt(v: string, b: nat, kind: string) {
    At(v, b, HeaderOf(kind)) && !At(v, b + |HeaderOf(kind)| - 5, "-----BEGIN ")
  }

  function LabelOf(m: nat): string
    requires m < |KINDS|
  {
    KINDS[m] + "PRIVATE KEY"
  }

  lemma SixLabels()
    ensures |KINDS| == 6
    ensures LabelOf(0) == "PRIVATE KEY" && LabelOf(1) == "RSA PRIVATE KEY" && LabelOf(2) == "EC PRIVATE KEY"
    ensures LabelOf(3) == "DSA PRIVATE KEY" && LabelOf(4) == "OPENSSH PRIVATE KEY" && LabelOf(5) == "ENCRYPTED PRIVATE KEY"
  {
    var key := "PRIVATE KEY";
    assert LabelOf(0) == "" + key;
    assert LabelOf(1) == "RSA " + key && "RSA " + key == "RSA PRIVATE KEY";
    assert LabelOf(2) == "EC " + key && "EC " + key == "EC PRIVATE KEY";
    LongLabels();
  }

  lemma LongLabels()
    ensures LabelOf(3) == "DSA PRIVATE KEY" && LabelOf(4) == "OPENSSH PRIVATE KEY" && LabelOf(5) == "ENCRYPTED PRIVATE KEY"
  {
  }

  lemma LabelKnown(m: nat)
    requires m < |KINDS|
    ensures LabelOf(m) in LABELS
  {
    SixLabels();
    hide LabelOf;
  }

  lemma LabelsExactly(name: string)
    ensures name in LABELS <==> exists m: nat :: m < |KINDS| && name == LabelOf(m)
  {
    SixLabels();
    hide LabelOf;
    if m: nat :| m < |KINDS| && name == LabelOf(m) { LabelKnown(m); }
  }

  lemma HeaderOfLabel(kind: string, name: string)
    requires name == kind + "PRIVATE KEY"
    ensures HeaderText(name) == HeaderOf(kind) && Footer(name) == FooterOf(kind)
    ensures |HeaderOf(kind)| == |BEGIN| + |name| + 5
  {
  }

  /** A header is recognised exactly where the text of one of the six kinds stands. */
  lemma HeadedExactly(v: string, b: nat)
    ensures Headed(v, b) <==> exists m: nat :: m < |KINDS| && HeaderAt(v, b, KINDS[m])
  {
    hide Headed, LABELS, HeaderText, HeaderOf, Footer, FooterOf;
    if Headed(v, b) {
      var name := HeaderIsText(v, b);
      LabelsExactly(name);
      var m: nat :| m < |KINDS| && name == LabelOf(m);
      HeaderOfLabel(KINDS[m], name);
      assert HeaderAt(v, b, KINDS[m]);
    }
    if m: nat :| m < |KINDS| && HeaderAt(v, b, KINDS[m]) {
      var name := LabelOf(m);
      LabelsExactly(name);
      HeaderOfLabel(KINDS[m], name);
      TextIsHeader(v, b, name);
    }
  }

  // ---- Where a header scan stops ----

  /** What ends a label: a marker, or the end of the line, be it written as an escape. */
  predicate EndsLabel(v: string, i: nat) {
    || At(v, i, "-----BEGIN ") || At(v, i, "-----")
    || At(v, i, "\n") || At(v, i, "\r") || At(v, i, "\\n") || At(v, i, "\\r")
  }

  lemma OneCharacter(v: string, i: nat, c: char)
    ensures At(v, i, [c]) <==> i < |v| && v[i] == c
  {
  }

  lemma TwoCharacters(v: string, i: nat, a: char, b: char)
    ensures At(v, i, [a, b]) <==> i + 1 < |v| && v[i] == a && v[i + 1] == b
  {
    if i + 2 <= |v| { assert v[i..i + 2] == [v[i], v[i + 1]]; }
  }

  lemma BreaksExactly(v: string, i: nat)
    requires i < |v|
    ensures BreaksAt(v, i) <==> At(v, i, "\n") || At(v, i, "\r") || At(v, i, "\\n") || At(v, i, "\\r")
  {
    hide At;
    OneCharacter(v, i, '\n');
    OneCharacter(v, i, '\r');
    TwoCharacters(v, i, '\\', 'n');
    TwoCharacters(v, i, '\\', 'r');
  }

  /** The scan stops at the first thing that ends a label, and takes it when these are closing hyphens. */
  lemma {:induction false} HeaderEndExactly(v: string, i: nat, h: nat)
    requires i <= h <= |v| && (forall k :: i <= k < h ==> !EndsLabel(v, k)) && (h < |v| ==> EndsLabel(v, h))
    ensures HeaderEnd(v, i) == if At(v, h, "-----") && !At(v, h, "-----BEGIN ") then Ended(h) else Rejected(h)
    decreases h - i
  {
    if i < |v| { BreaksExactly(v, i); }
    if i < h {
      assert !EndsLabel(v, i);
      HeaderEndExactly(v, i + 1, h);
    }
  }

  // ---- Blocks ----

  /** The block of a kind: its header, and the text up to and with its first footer, or to the end. */
  predicate BlockOf(v: string, b: nat, e: nat, kind: string) {
    && HeaderAt(v, b, kind) && e <= |v|
    && var behind, footer := b + |HeaderOf(kind)|, FooterOf(kind);
       if e >= behind + |footer| && At(v, e - |footer|, footer)
       then forall k :: behind <= k < e - |footer| ==> !At(v, k, footer)
       else e == |v| && forall k :: behind <= k <= |v| ==> !At(v, k, footer)
  }

  lemma FooterEndsExactly(v: string, behind: nat, footer: string, e: nat)
    requires behind <= |v| && e <= |v| && footer != ""
    ensures EndsBlock(v, behind, footer, e)
            <==> if e >= behind + |footer| && At(v, e - |footer|, footer)
                 then forall k :: behind <= k < e - |footer| ==> !At(v, k, footer)
                 else e == |v| && forall k :: behind <= k <= |v| ==> !At(v, k, footer)
  {
    assert forall k: nat :: At(v, k, footer) <==> StartsAt(v, k, footer);
  }

  lemma KindOfHeader(v: string, b: nat, m: nat)
    requires m < |KINDS| && HeaderAt(v, b, KINDS[m])
    ensures Headed(v, b) && HeaderEnd(v, b + |BEGIN|) == Ended(b + |HeaderOf(KINDS[m])| - 5)
    ensures b + |HeaderOf(KINDS[m])| <= |v|
    ensures b + |BEGIN| <= b + |HeaderOf(KINDS[m])| - 5
    ensures Footer(v[b + |BEGIN|..b + |HeaderOf(KINDS[m])| - 5]) == FooterOf(KINDS[m])
  {
    hide Headed, LABELS, HeaderText, HeaderOf, Footer, FooterOf, HeaderEnd;
    var name := LabelOf(m);
    LabelsExactly(name);
    HeaderOfLabel(KINDS[m], name);
    TextIsHeader(v, b, name);
    NameInside(v, b, name);
  }

  lemma NameInside(v: string, b: nat, name: string)
    requires StartsAt(v, b, HeaderText(name))
    ensures v[b + |BEGIN|..b + |BEGIN| + |name|] == name
  {
    PartOfPart(v, b, b + |HeaderText(name)|, |BEGIN|, |BEGIN| + |name|);
  }

  /** What the pass replaces is a block of one of the six kinds. */
  lemma BlockExactly(v: string, p: Span)
    ensures IsBlock(v, p) <==> exists m: nat :: m < |KINDS| && BlockOf(v, p.begin, p.end, KINDS[m])
  {
    hide Headed, HeaderOf, FooterOf, Footer, HeaderEnd, LABELS, EndsBlock;
    HeadedExactly(v, p.begin);
    if IsBlock(v, p) {
      var m: nat :| m < |KINDS| && HeaderAt(v, p.begin, KINDS[m]);
      KindOfHeader(v, p.begin, m);
      FooterEndsExactly(v, p.begin + |HeaderOf(KINDS[m])|, FooterOf(KINDS[m]), p.end);
      assert BlockOf(v, p.begin, p.end, KINDS[m]);
    }
    if m: nat :| m < |KINDS| && BlockOf(v, p.begin, p.end, KINDS[m]) {
      KindOfHeader(v, p.begin, m);
      FooterEndsExactly(v, p.begin + |HeaderOf(KINDS[m])|, FooterOf(KINDS[m]), p.end);
    }
  }

  // ---- Every header is taken ----

  /** The header at `b` is inside a block, or runs together with the closing hyphens of a label that is not known. */
  ghost predicate Taken(v: string, b: nat) {
    || (exists p <- BlockSpans(v, 0) :: p.begin <= b < p.end)
    || (exists h: nat :: h < b < h + 5 && At(v, h, "------"))
  }

  lemma {:induction false} HeadersTaken(v: string, c: nat, b: nat)
    requires c <= b <= |v| && Headed(v, b)
    ensures || (exists p <- BlockSpans(v, c) :: p.begin <= b < p.end)
            || (exists h: nat :: h < b < h + 5 && At(v, h, "------"))
    decreases |v| - c
  {
    hide Headed, NextStep;
    match NextStep(v, c) {
      case Finish => FinishHasNone(v, c, b);
      case Skip(next) =>
        if next <= b {
          HeadersTaken(v, next, b);
        } else {
          SkipPassesHeader(v, c, b);
          assert At(v, next - 5, "------");
        }
      case Block(begin, end) =>
        BlockIsFirst(v, c, b);
        if end <= b {
          HeadersTaken(v, end, b);
          assert forall p <- BlockSpans(v, end) :: p in BlockSpans(v, c);
        } else {
          assert Span(begin, end) in BlockSpans(v, c);
        }
    }
  }

  lemma FinishHasNone(v: string, c: nat, b: nat)
    requires c <= b <= |v| && NextStep(v, c).Finish?
    ensures !Headed(v, b)
  {
    hide HeaderEnd, LABELS;
  }

  lemma BlockIsFirst(v: string, c: nat, b: nat)
    requires c <= b <= |v| && NextStep(v, c).Block? && Headed(v, b)
    ensures NextStep(v, c).begin <= b
  {
    hide HeaderEnd, LABELS;
  }

  /** The output is the text with blocks of the six kinds replaced, and every header is in one, or behind a sixth hyphen. */
  lemma PassReplacesKeyBlocks(v: string)
    ensures var spans := BlockSpans(v, 0);
            && InOrder(0, spans, |v|) && RedactBlocks(v) == Spliced(v, 0, spans)
            && (forall p <- spans :: exists m: nat :: m < |KINDS| && BlockOf(v, p.begin, p.end, KINDS[m]))
            && (forall b: nat, m: nat :: m < |KINDS| && HeaderAt(v, b, KINDS[m]) ==> Taken(v, b))
  {
    hide IsBlock, BlockOf, HeaderAt, Taken, BlockSpans, Headed;
    PassReplacesExactlyBlocks(v);
    forall p | p in BlockSpans(v, 0) ensures exists m: nat :: m < |KINDS| && BlockOf(v, p.begin, p.end, KINDS[m]) {
      BlockExactly(v, p);
    }
    forall b: nat, m: nat | m < |KINDS| && HeaderAt(v, b, KINDS[m]) ensures Taken(v, b) {
      HeadedExactly(v, b);
      AllTaken(v, b);
    }
  }

  lemma AllTaken(v: string, b: nat)
    requires Headed(v, b)
    ensures Taken(v, b)
  {
    hide Headed, BlockSpans;
    assert b <= |v| by { HeadedInside(v, b); }
    HeadersTaken(v, 0, b);
  }

  lemma HeadedInside(v: string, b: nat)
    requires Headed(v, b)
    ensures b <= |v|
  {
  }
}
