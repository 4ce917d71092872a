/** Six hyphens in a row: how a header is left standing, and how a second pass can find it. */
module SecondPass {
  import opened Options
  import opened Redaction
  import opened PrivateKeys
  import opened PrivateKeyTheorems
  import opened PrivateKeyLimits

  // ---- The pass looks forward only ----

  function ShiftFound(r: Option<nat>, low: nat): Option<nat>
    requires r.Some? ==> low <= r.value
  {
    if r.None? then None else Some(r.value - low)
  }

  lemma {:induction false} FindShifts(v: string, low: nat, word: string, i: nat)
    requires low + i <= |v| && word != ""
    ensures Find(v[low..], word, i) == ShiftFound(Find(v, word, low + i), low)
    decreases |v| - i
  {
    hide StartsAt;
    StartsInSuffix(v, low, i, word);
    if low + i < |v| {
      FindShifts(v, low, word, i + 1);
    }
  }

  lemma {:induction false} HeaderEndShifts(v: string, low: nat, i: nat)
    requires low + i <= |v|
    ensures var r := HeaderEnd(v, low + i);
            HeaderEnd(v[low..], i) == if r.Ended? then Ended(r.at - low) else Rejected(r.at - low)
    decreases |v| - i
  {
    hide StartsAt;
    StartsInSuffix(v, low, i, BEGIN);
    StartsInSuffix(v, low, i, MARKER_END);
    if low + i < |v| {
      HeaderEndShifts(v, low, i + 1);
    }
  }

  function ShiftStep(s: Step, low: nat): Step
    requires (s.Skip? ==> low <= s.next) && (s.Block? ==> low <= s.begin && low <= s.end)
  {
    match s
    case Finish => Finish
    case Skip(next) => Skip(next - low)
    case Block(begin, end) => Block(begin - low, end - low)
  }

  /** What is done once the begin marker and the end of its label are known. */
  function StepAt(v: string, begin: nat, header: Header): Step
    requires begin + |BEGIN| <= header.at <= |v| && (header.Ended? ==> header.at + |MARKER_END| <= |v|)
  {
    match header
    case Rejected(at) => Skip(at)
    case Ended(at) =>
      var name := v[begin + |BEGIN|..at];
      if name !in LABELS then Skip(at + |MARKER_END|)
      else Block(begin, FirstFooterEnd(v, at + |MARKER_END|, Footer(name)))
  }

  lemma StepIs(v: string, c: nat)
    requires c <= |v| && Find(v, BEGIN, c).Some?
    ensures var begin := Find(v, BEGIN, c).value;
            NextStep(v, c) == StepAt(v, begin, HeaderEnd(v, begin + |BEGIN|))
  {
    hide Find, HeaderEnd, LABELS, Footer, StartsAt;
  }

  lemma NoneFinishes(v: string, c: nat)
    requires c <= |v|
    ensures Find(v, BEGIN, c).None? ==> NextStep(v, c) == Finish
  {
    hide Find, HeaderEnd, LABELS, Footer, StartsAt;
  }

  lemma StepAtShifts(v: string, low: nat, begin: nat, header: Header)
    requires low <= begin && begin + |BEGIN| <= header.at <= |v|
    requires header.Ended? ==> header.at + |MARKER_END| <= |v|
    ensures var shifted := if header.Ended? then Ended(header.at - low) else Rejected(header.at - low);
            StepAt(v[low..], begin - low, shifted)
            == match StepAt(v, begin, header)
               case Finish => Finish
               case Skip(next) => Skip(next - low)
               case Block(b, e) => Block(b - low, e - low)
  {
    hide Find, LABELS, Footer, StartsAt;
    if header.Ended? {
      var behind := header.at + |MARKER_END|;
      var name := v[begin + |BEGIN|..header.at];
      PartOfSuffix(v, low, begin + |BEGIN|, header.at);
      FindShifts(v, low, Footer(name), behind - low);
    }
  }

  lemma PartOfSuffix(v: string, low: nat, a: nat, b: nat)
    requires low <= a <= b <= |v|
    ensures v[low..][a - low..b - low] == v[a..b]
  {
  }

  lemma NextStepShifts(v: string, low: nat, c: nat)
    requires low + c <= |v|
    ensures NextStep(v[low..], c) == ShiftStep(NextStep(v, low + c), low)
  {
    hide Find, HeaderEnd, LABELS, Footer, StartsAt, StepAt, NextStep;
    FindShifts(v, low, BEGIN, c);
    NoneFinishes(v, low + c);
    NoneFinishes(v[low..], c);
    var found := Find(v, BEGIN, low + c);
    if found.Some? {
      StepIs(v, low + c);
      StepIs(v[low..], c);
      HeaderEndShifts(v, low, found.value + |BEGIN| - low);
      StepAtShifts(v, low, found.value, HeaderEnd(v, found.value + |BEGIN|));
    }
  }

  /** The output from the cursor on, given the step taken there. */
  function Continued(v: string, c: nat, s: Step): string
    requires c <= |v| && (s.Skip? ==> c < s.next <= |v|) && (s.Block? ==> c <= s.begin < s.end <= |v|)
  {
    match s
    case Finish => v[c..]
    case Skip(next) => v[c..next] + Pass(v, next)
    case Block(begin, end) => v[c..begin] + REDACTED + Pass(v, end)
  }

  lemma PassIs(v: string, c: nat)
    requires c <= |v|
    ensures Pass(v, c) == Continued(v, c, NextStep(v, c))
  {
    hide NextStep;
  }

  /** What is put out from an index on depends on the text from there alone. */
  lemma {:induction false} PassShifts(v: string, low: nat, c: nat)
    requires low + c <= |v|
    ensures Pass(v[low..], c) == Pass(v, low + c)
    decreases |v| - c
  {
    hide NextStep, Pass;
    NextStepShifts(v, low, c);
    PassIs(v, low + c);
    PassIs(v[low..], c);
    match NextStep(v, low + c) {
      case Finish => assert v[low..][c..] == v[low + c..];
      case Skip(next) =>
        PassShifts(v, low, next - low);
        PartOfSuffix(v, low, low + c, next);
      case Block(begin, end) =>
        PassShifts(v, low, end - low);
        PartOfSuffix(v, low, low + c, begin);
    }
  }

  /** Where no begin marker stands, the pass may as well start one character later. */
  lemma StepLater(v: string, c: nat, n: nat)
    requires c <= n <= |v| && forall k :: c <= k < n ==> !StartsAt(v, k, BEGIN)
    ensures NextStep(v, c) == NextStep(v, n)
  {
    hide HeaderEnd, LABELS, Footer, StartsAt;
    FindLater(v, c, n);
  }

  lemma {:induction false} FindLater(v: string, c: nat, n: nat)
    requires c <= n <= |v| && forall k :: c <= k < n ==> !StartsAt(v, k, BEGIN)
    ensures Find(v, BEGIN, c) == Find(v, BEGIN, n)
    decreases n - c
  {
    hide StartsAt;
    if c < n {
      FindLater(v, c + 1, n);
    }
  }

  lemma HeadedIsBlock(v: string, c: nat)
    requires c <= |v| && Headed(v, c)
    ensures NextStep(v, c).Block? && NextStep(v, c).begin == c
  {
    hide HeaderEnd, LABELS, Footer;
  }

  // ---- A header run together with a marker before it ----

  /** A begin marker without a label, run together with a whole header by six hyphens. */
  function RunTogether(name: string, rest: string): (v: string)
    ensures |v| == 28 + |name| + |rest|
  {
    BEGIN + "-" + HeaderText(name) + rest
  }

  /** Text that neither holds a hyphen nor turns hyphens before it into a begin marker. */
  predicate NoHyphen(s: string) { (forall k :: 0 <= k < |s| ==> s[k] != '-') && (s != "" ==> s[0] != 'B') }

  lemma RunTogetherCharacters(name: string, rest: string, k: nat)
    requires name in LABELS && 17 <= k < 23 + |name|
    ensures RunTogether(name, rest)[k] != '-'
  {
    LabelText(name);
    hide LABELS;
    InThreeParts(BEGIN + "-" + BEGIN, name, MARKER_END + rest, k);
    assert RunTogether(name, rest) == BEGIN + "-" + BEGIN + name + (MARKER_END + rest);
  }

  lemma HeaderBehindSix(name: string, rest: string)
    requires name in LABELS && NoHyphen(rest)
    ensures Headed(RunTogether(name, rest), 12)
  {
    hide LABELS;
    var v := RunTogether(name, rest);
    assert v[12..12 + |HeaderText(name)|] == HeaderText(name);
    assert v[28 + |name|..] == rest;
    HeaderFollowed(v, 12, name, rest);
  }

  /** A header's text followed by text without hyphens is a header. */
  lemma HeaderFollowed(v: string, b: nat, name: string, rest: string)
    requires name in LABELS && StartsAt(v, b, HeaderText(name)) && NoHyphen(rest)
    requires v[b + |HeaderText(name)|..] == rest
    ensures Headed(v, b) && HeaderEnd(v, b + |BEGIN|) == Ended(b + |BEGIN| + |name|)
  {
    hide LABELS, HeaderEnd;
    var h := b + |BEGIN| + |name|;
    CharacterOf(v, h, BEGIN, 5);
    assert rest != "" ==> v[h + 5] == rest[0];
    TextIsHeader(v, b, name);
  }

  lemma NoEmptyLabel()
    ensures "" !in LABELS
  {
  }

  /** Six hyphens stand behind a marker without a label: the skip ends one hyphen into the header. */
  lemma FirstStepSkips(name: string, rest: string)
    requires name in LABELS
    ensures NextStep(RunTogether(name, rest), 0) == Skip(16)
  {
    var v := RunTogether(name, rest);
    FrontOf(name, rest);
    CharacterOf(v, 11, BEGIN, 5);
    hide LABELS, RunTogether, HeaderText;
    assert v[11..11] == "";
    NoEmptyLabel();
  }

  lemma FrontOf(name: string, rest: string)
    ensures var v := RunTogether(name, rest);
            StartsAt(v, 0, BEGIN) && StartsAt(v, 11, MARKER_END) && v[16] == '-'
  {
    var v := RunTogether(name, rest);
    var front := BEGIN + "------";
    assert v[0..17] == front by {
      assert HeaderText(name)[..5] == "-----";
    }
    PartOfPart(v, 0, 17, 0, 11);
    PartOfPart(v, 0, 17, 11, 16);
    assert front[0..11] == BEGIN && front[11..16] == MARKER_END;
    assert v[0..17][16] == v[16];
  }

  lemma SecondStepFinishes(name: string, rest: string)
    requires name in LABELS && NoHyphen(rest)
    ensures NextStep(RunTogether(name, rest), 16) == Finish
  {
    hide LABELS, RunTogether, Headed, HeaderEnd;
    var v := RunTogether(name, rest);
    forall k | 16 <= k <= |v| ensures !StartsAt(v, k, BEGIN) {
      if k == 16 {
        RunTogetherCharacters(name, rest, 17);
        CharacterOf(v, 16, BEGIN, 1);
      } else if k < 23 + |name| {
        RunTogetherCharacters(name, rest, k);
        CharacterOf(v, k, BEGIN, 0);
      } else {
        NoBeginAtEnd(name, rest, k);
      }
    }
  }

  lemma NoBeginAtEnd(name: string, rest: string, k: nat)
    requires NoHyphen(rest) && 23 + |name| <= k
    ensures !StartsAt(RunTogether(name, rest), k, BEGIN)
  {
    var v := RunTogether(name, rest);
    var front := BEGIN + "-" + BEGIN + name;
    var end := 28 + |name|;
    assert v == front + MARKER_END + rest;
    if k < end {
      CharacterOf(v, k, BEGIN, end - k);
      assert rest != "" ==> v[end] == rest[0];
      if k == end - 5 {
        CharacterOf(v, k, BEGIN, 5);
      }
    } else if k < |v| {
      CharacterOf(v, k, BEGIN, 0);
      assert v[k] == rest[k - end];
    }
  }

  /** Six hyphens in a row carry any header over to the output; alone, they leave the pass idempotent. */
  lemma SixHyphensHideHeader(name: string, rest: string)
    requires name in LABELS && NoHyphen(rest)
    ensures var v := RunTogether(name, rest);
            RedactBlocks(v) == v && !NoHeader(RedactBlocks(v))
  {
    hide LABELS, RunTogether, Headed, NextStep;
    var v := RunTogether(name, rest);
    assert Pass(v, 0) == RedactBlocks(v);
    FirstStepSkips(name, rest);
    SecondStepFinishes(name, rest);
    HeaderBehindSix(name, rest);
    assert v == v[0..16] + v[16..];
  }

  // ---- A second pass that changes the output of the first ----

  /** The end of the text below: six hyphens before a marker, and six before a header. */
  function Tail(name: string): string { "-" + RunTogether(name, "s") }

  /**
   An open begin marker, a whole block, and behind the block a header run together with a
   marker before it.
  */
  function OpenThenBlock(name: string): string { BEGIN + "A" + Closed(name) }

  function Closed(name: string): string { HeaderText(name) + "x" + Footer(name) + Tail(name) }

  lemma TailStarts(name: string)
    ensures Tail(name)[1..] == RunTogether(name, "s")
    ensures !StartsAt(Tail(name), 0, BEGIN) && StartsAt(Tail(name), 0, MARKER_END)
  {
    var t := Tail(name);
    assert t[0..5] == MARKER_END;
    assert t[5] == '-';
    CharacterOf(t, 0, BEGIN, 5);
  }

  lemma TailIsKept(name: string)
    requires name in LABELS
    ensures RedactBlocks(Tail(name)) == Tail(name)
  {
    hide LABELS, Tail, Pass, NextStep, RunTogether, StartsAt;
    var t := Tail(name);
    TailStarts(name);
    StepLater(t, 0, 1);
    NextStepShifts(t, 1, 0);
    FirstStepSkips(name, "s");
    PassIs(t, 0);
    PassShifts(t, 1, 16);
    SecondStepFinishes(name, "s");
    PassIs(t[1..], 16);
    assert t[1..][16..] == t[17..] && t == t[0..17] + t[17..];
    PassIsRedact(t);
  }

  lemma PassIsRedact(v: string)
    ensures RedactBlocks(v) == Pass(v, 0)
  {
  }

  lemma Associated(a: string, b: string, c: string)
    ensures a + b + c == a + (b + c)
  {
  }

  lemma ClosedParts(name: string)
    ensures var v := Closed(name);
            && StartsAt(v, 0, HeaderText(name)) && v[|HeaderText(name)|..] == "x" + Footer(name) + Tail(name)
            && v[|BEGIN|..|BEGIN| + |name|] == name
  {
    var v := Closed(name);
    var t := HeaderText(name);
    assert v == t + ("x" + Footer(name) + Tail(name));
    assert v[0..|t|] == t;
    PartOfPart(v, 0, |t|, |BEGIN|, |BEGIN| + |name|);
    assert t[|BEGIN|..|BEGIN| + |name|] == name;
  }

  lemma FooterFound(name: string, rest: string)
    ensures Find("x" + Footer(name) + rest, Footer(name), 0) == Some(1)
  {
    var v := "x" + Footer(name) + rest;
    assert Footer(name)[0] == '-';
    CharacterOf(v, 0, Footer(name), 0);
    assert v[1..1 + |Footer(name)|] == Footer(name);
  }

  lemma ClosedIsBlock(name: string)
    requires name in LABELS
    ensures NextStep(Closed(name), 0) == Block(0, |HeaderText(name)| + 1 + |Footer(name)|)
  {
    hide LABELS, Find, NextStep, HeaderEnd, Headed, Tail, HeaderText, Closed, Footer;
    var v := Closed(name);
    ClosedParts(name);
    var h := |BEGIN| + |name|;
    var rest := "x" + Footer(name) + Tail(name);
    assert v[h + 5..] == rest;
    assert v[h + 5] == rest[0] == 'x';
    CharacterOf(v, h, BEGIN, 5);
    TextIsHeader(v, 0, name);
    HeadedIsBlock(v, 0);
    BlockStep(v, 0, h);
    FindShifts(v, h + 5, Footer(name), 0);
    FooterFound(name, Tail(name));
  }

  /** The first pass replaces the block and keeps the rest. */
  lemma FirstPass(name: string)
    requires name in LABELS
    ensures RedactBlocks(OpenThenBlock(name)) == BEGIN + "A" + REDACTED + Tail(name)
  {
    hide LABELS, NextStep, Tail, Pass;
    var v := OpenThenBlock(name);
    OpenMarkerSkips(name);
    PassIs(v, 0);
    assert v[12..] == Closed(name) && v[0..12] == BEGIN + "A";
    PassShifts(v, 12, 0);
    var c := Closed(name);
    ClosedIsBlock(name);
    PassIs(c, 0);
    var end := |HeaderText(name)| + 1 + |Footer(name)|;
    assert c[end..] == Tail(name);
    PassShifts(c, end, 0);
    TailIsKept(name);
    assert c[0..0] + REDACTED == REDACTED;
    Associated(BEGIN + "A", REDACTED, Tail(name));
  }

  lemma OpenMarkerSkips(name: string)
    ensures NextStep(OpenThenBlock(name), 0) == Skip(12)
  {
    hide LABELS, Closed;
    var v := OpenThenBlock(name);
    assert v[0..11] == BEGIN && v[11] == 'A';
    assert v[12..] == Closed(name);
    ClosedParts(name);
    var t := HeaderText(name);
    assert t[0..11] == BEGIN;
    PartOfPart(v[12..], 0, |t|, 0, 11);
    StartsInSuffix(v, 12, 0, BEGIN);
    NotAtLabel(v, 11);
    assert HeaderEnd(v, 12) == Rejected(12);
    assert HeaderEnd(v, 11) == Rejected(12);
  }

  lemma NothingBeforeHeader(name: string, rest: string, k: nat)
    requires 4 <= k < 12
    ensures !StartsAt(RunTogether(name, rest), k, BEGIN)
  {
    var v := RunTogether(name, rest);
    FrontOf(name, rest);
    assert v[0..11] == BEGIN;
    if k < 11 {
      assert v[5] == BEGIN[5] && v[k] == BEGIN[k];
      CharacterOf(v, k, BEGIN, 0);
      CharacterOf(v, k, BEGIN, 1);
    } else {
      CharacterOf(v, k, BEGIN, 5);
    }
  }

  /** One hyphen before it is enough to see the header, once the scan arrives there. */
  lemma HeaderSeen(name: string)
    requires name in LABELS
    ensures NextStep(RunTogether(name, "s"), 4).Block?
  {
    hide LABELS, RunTogether, NextStep, Headed;
    var v := RunTogether(name, "s");
    forall k | 4 <= k < 12 ensures !StartsAt(v, k, BEGIN) { NothingBeforeHeader(name, "s", k); }
    HeaderBehindSix(name, "s");
    StepLater(v, 4, 12);
    HeadedIsBlock(v, 12);
  }

  /** In the output the open marker takes what replaced the block, and the five hyphens behind, for its end. */
  lemma OpenMarkerTakesHyphens(name: string)
    requires name in LABELS
    ensures NextStep(BEGIN + "A" + REDACTED + Tail(name), 0) == Skip(27)
  {
    var v := BEGIN + "A" + REDACTED + Tail(name);
    var between := "A" + REDACTED;
    assert v[0..11] == BEGIN;
    assert v[22..] == Tail(name) && v[11..22] == between;
    TailStarts(name);
    StartsInSuffix(v, 22, 0, BEGIN);
    StartsInSuffix(v, 22, 0, MARKER_END);
    forall k | 11 <= k < 22 ensures Plain(v[k]) {
      assert v[k] == between[k - 11];
    }
    LabelScanned(v, 11, 22);
    assert between[1] == '[';
    if between in LABELS {
      LabelText(between);
    }
    hide LABELS, Tail, HeaderEnd;
  }

  /** For every known label: the second pass replaces a header that the first left standing. */
  lemma SecondPassCanRedact(name: string)
    requires name in LABELS
    ensures var w := RedactBlocks(OpenThenBlock(name));
            RedactBlocks(w) != w
  {
    hide LABELS, Tail, NextStep, Pass, RunTogether;
    var w := BEGIN + "A" + REDACTED + Tail(name);
    FirstPass(name);
    OpenMarkerTakesHyphens(name);
    PassIs(w, 0);
    TailStarts(name);
    assert w[22..] == Tail(name);
    assert w[22..][1..] == w[23..];
    HeaderSeen(name);
    NextStepShifts(w, 23, 4);
    BlockShrinks(w, 27);
    PassIs(w, 27);
    PassNeverGrows(w, NextStep(w, 27).end);
    assert RedactBlocks(w) == Pass(w, 0);
  }
}
