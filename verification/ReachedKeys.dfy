/**
 Nothing secret is passed over: every secret key of a text is one the scan arrives at, or it
 stands inside the value of an earlier secret key, or shares the quotes of an earlier key.
*/
module ReachedKeys {
  import opened Options
  import opened Redaction
  import opened RedactionSpans
  import opened ValueEnds
  import opened BlockScalars
  import opened FlowValues
  import opened SecretNames
  import opened SecretTexts
  import opened LineHeads

  /** The value at `s` of the key at `i` goes on behind `k`. */
  ghost predicate InValue(v: string, i: nat, name: string, delimiter: char, head: bool, s: nat, k: nat)
    requires s < |v|
  {
    s <= k < |v| && if v[s] == '"' || v[s] == '\'' then forall e: nat :: QuotedTo(v, s, e) ==> k < e
                    else exists e: nat :: UnquotedEndsAt(v, i, name, delimiter, head, s, e) && k < e
  }

  /** The scan arrives at a secret key that stands at `i`, and `k` is in its value. */
  ghost predicate InSecretValue(v: string, i: nat, at: Stage, key: Key, d: nat, s: nat, k: nat) {
    SecretFieldAt(v, i, at, key, d, s) && InValue(v, i, key.name, v[d], at != Content, s, k)
  }

  /** The quoted key at `i` has its closing quote at `k`, or the same name from `k` on. */
  ghost predicate SharesQuotes(v: string, i: nat, key: Key, k: nat, name: string) {
    KeyAt(v, i, key) && key.quoted && i < k && (k == key.after - 1 || (k == i + 1 && key.name == name))
  }

  ghost predicate Reached(v: string, k: nat) { exists at :: Arrives(v, 0, LineStart, k, at) }

  /** A key of that name at `k` is part of what an earlier key takes. */
  ghost predicate TakenBefore(v: string, k: nat, name: string) {
    || (exists i: nat, at: Stage, key: Key, d: nat, s: nat :: i < k && InSecretValue(v, i, at, key, d, s, k))
    || (exists i: nat, key: Key :: Reached(v, i) && SharesQuotes(v, i, key, k, name))
  }

  lemma KeysOverlap(v: string, i: nat, first: Key, k: nat, key: Key)
    requires KeyAt(v, i, first) && KeyAt(v, k, key) && i < k < first.after
    ensures SharesQuotes(v, i, first, k, key.name)
  {
    hide HoldsSecretWord;
    if first.quoted {
      NameSlice(v, i + 1, first.after - 1);
      if k < first.after - 1 {
        assert NameCharacter(v[k]) && !key.quoted;
        assert k == i + 1 by { if k > i + 1 { BareKeyAlone(v, k, key); } }
        NameSlice(v, k, key.after);
        assert key.after == first.after - 1;
      }
    } else {
      NameSlice(v, i, first.after);
    }
  }

  lemma BareKeyAlone(v: string, k: nat, key: Key)
    requires KeyAt(v, k, key) && !key.quoted && k > 0
    ensures k <= |v| && !NameCharacter(v[k - 1])
  {
  }

  lemma KeyStarts(v: string, k: nat, key: Key)
    requires KeyAt(v, k, key)
    ensures k < |v| && !Blank(v[k]) && v[k] != ':' && v[k] != '=' && (Letter(v[k]) || IsQuote(v[k]))
  {
    if !key.quoted { assert v[k] == key.name[0]; }
  }

  /** A value that starts with a letter is not empty. */
  lemma LetterIsValue(v: string, i: nat, s: nat, name: string, delimiter: char, stage: Stage)
    requires i <= s < |v| && Letter(v[s])
    ensures s < PlainValueEnd(v, i, s, name, delimiter, stage)
  {
    hide TrimBack, CommentStart, FlowStop, BlockLines;
    CommentFrom(v, s);
    FlowFrom(v, s);
    NotRedacted(v, s);
  }

  lemma CommentFrom(v: string, s: nat)
    requires s < |v| && Letter(v[s])
    ensures s < LineValueEnd(v, s)
  {
    assert s < LineBreak(v, s);
    assert s < CommentStart(v, s, s, LineBreak(v, s));
  }

  lemma FlowFrom(v: string, s: nat)
    requires s < |v| && Letter(v[s])
    ensures s < FlowStop(v, s, s, [], None)
  {
  }

  lemma ValuePassed(v: string, i: nat, at: Stage, key: Key, d: nat, s: nat, k: nat, there: Key)
    requires SecretFieldAt(v, i, at, key, d, s) && i < s <= k < |v| && d < s && (v[d] == ':' || v[d] == '=')
    requires KeyAt(v, k, there)
    requires var m := ValueMove(v, i, s, key.name, v[d], at);
             k < match m case Copy(next, _) => next case Replace(_, e, _) => e
    ensures InSecretValue(v, i, at, key, d, s, k)
  {
    hide SecretFieldAt, QuotedEnd, PlainValueEnd, UnquotedEndsAt, KeyAt, Closes;
    KeyStarts(v, k, there);
    if IsQuote(v[s]) {
      forall e: nat ensures QuotedEnd(v, s + 1, v[s]) == Some(e) <==> QuotedTo(v, s, e) {
        QuotedEndExactly(v, s + 1, v[s], e);
      }
    } else {
      var e := PlainValueEnd(v, i, s, key.name, v[d], at);
      PlainValueEndExactly(v, i, s, key.name, v[d], at, e);
      if k == s { LetterIsValue(v, i, s, key.name, v[d], at); }
    }
  }

  lemma KeyPassed(v: string, i: nat, at: Stage, k: nat, key: Key)
    requires i < |v| && i < k < After(v, i, at).0 && Arrives(v, 0, LineStart, i, at) && KeyAt(v, k, key)
    requires HoldsSecretWord(key.name)
    ensures TakenBefore(v, k, key.name)
  {
    hide Arrives, ReadKey, KeyAt, IsSecretKey, HoldsSecretWord, SecretMove, SharesQuotes, InSecretValue;
    var first := ReadKey(v, i);
    assert first.Some?;
    ReadKeyExactly(v, i, first.value);
    assert Reached(v, i);
    if k < first.value.after {
      KeysOverlap(v, i, first.value, k, key);
    } else {
      SecretKeysHoldWords(first.value.name);
      SecretPassed(v, i, at, first.value, k, key);
    }
  }

  lemma SecretPassed(v: string, i: nat, at: Stage, first: Key, k: nat, key: Key)
    requires Arrives(v, 0, LineStart, i, at) && KeyAt(v, i, first) && HoldsSecretWord(first.name)
    requires KeyAt(v, k, key) && i < first.after <= k < |v|
    requires var m := SecretMove(v, i, first, at);
             k < match m case Copy(next, _) => next case Replace(_, e, _) => e
    ensures TakenBefore(v, k, key.name)
  {
    hide Arrives, KeyAt, HoldsSecretWord, ValueMove, InSecretValue;
    KeyStarts(v, k, key);
    var d := BlankEnd(v, first.after);
    var s := BlankEnd(v, d + 1);
    assert ValueStartsAt(v, first, d, s);
    assert SecretFieldAt(v, i, at, first, d, s);
    ValuePassed(v, i, at, first, d, s, k, key);
  }

  lemma {:induction false} ReachedOrTaken(v: string, i: nat, at: Stage, k: nat, key: Key)
    requires Arrives(v, 0, LineStart, i, at) && i <= k && KeyAt(v, k, key) && HoldsSecretWord(key.name) && k < |v|
    ensures Reached(v, k) || TakenBefore(v, k, key.name)
    decreases k - i
  {
    hide Arrives, After, KeyAt, HoldsSecretWord, TakenBefore;
    if i < k {
      var next := After(v, i, at);
      if next.0 <= k {
        ArrivesOn(v, 0, LineStart, i, at);
        ReachedOrTaken(v, next.0, next.1, k, key);
      } else {
        KeyPassed(v, i, at, k, key);
      }
    }
  }

  /** The scan arrives at every secret key that no earlier key takes. */
  lemma SecretKeysAreReached(v: string, k: nat, key: Key)
    requires KeyAt(v, k, key) && HoldsSecretWord(key.name)
    ensures Reached(v, k) || TakenBefore(v, k, key.name)
  {
    hide KeyAt, HoldsSecretWord, TakenBefore, Reached, Arrives;
    KeyStarts(v, k, key);
    StartFits(v);
    ReachedOrTaken(v, 0, LineStart, k, key);
  }

  /**
   The output is the text with increasing, disjoint spans replaced. Each is a secret value in
   the terms of the text, and each secret value is among them unless its key is part of what
   an earlier key takes.
  */
  lemma RedactionReplacesSecretTexts(v: string)
    ensures var spans := Spans(v, 0, LineStart);
            && InOrder(0, spans, |v|) && RedactAssignments(v) == Spliced(v, 0, spans)
            && (forall p <- spans ::
                  && SecretText(v, p)
                  && (p.stage != Content <==> Head(v, p.keyStart) && !BehindEmptyValue(v, p.keyStart)))
            && forall k: nat, key: Key :: KeyAt(v, k, key) && HoldsSecretWord(key.name) && !TakenBefore(v, k, key.name) ==>
                 exists at :: Arrives(v, 0, LineStart, k, at) && TakesValueAt(v, k, at)
  {
    hide *;
    RedactionReplacesSecretValues(v);
    SpansAreTexts(v);
    KeysTakeValues(v);
  }

  lemma SpansAreTexts(v: string)
    ensures forall p <- Spans(v, 0, LineStart) ::
              && SecretText(v, p)
              && (p.stage != Content <==> Head(v, p.keyStart) && !BehindEmptyValue(v, p.keyStart))
  {
    hide Spans, SecretText, SecretValue, Arrives, Head, BehindEmptyValue;
    forall p | p in Spans(v, 0, LineStart)
      ensures SecretText(v, p)
      ensures p.stage != Content <==> Head(v, p.keyStart) && !BehindEmptyValue(v, p.keyStart)
    {
      SpansAreSecretValues(v, 0, LineStart, p);
      SecretValueExactly(v, p);
      SecretTextKey(v, p);
      HeadExactly(v, p.keyStart, p.stage);
    }
  }

  lemma KeysTakeValues(v: string)
    ensures forall k: nat, key: Key :: KeyAt(v, k, key) && HoldsSecretWord(key.name) && !TakenBefore(v, k, key.name) ==>
              exists at :: Arrives(v, 0, LineStart, k, at) && TakesValueAt(v, k, at)
  {
    hide Arrives, KeyAt, HoldsSecretWord, TakenBefore, TakesValueAt;
    forall k: nat, key: Key | KeyAt(v, k, key) && HoldsSecretWord(key.name) && !TakenBefore(v, k, key.name)
      ensures exists at :: Arrives(v, 0, LineStart, k, at) && TakesValueAt(v, k, at)
    {
      SecretKeysAreReached(v, k, key);
      var at :| Arrives(v, 0, LineStart, k, at);
      ValueTaken(v, k, at);
    }
  }

  /** Whatever secret value the key at `k` has is among the spans. */
  ghost predicate TakesValueAt(v: string, k: nat, at: Stage) {
    forall p: Span :: p.keyStart == k && p.stage == at && SecretText(v, p) ==> p in Spans(v, 0, LineStart)
  }

  lemma ValueTaken(v: string, k: nat, at: Stage)
    requires Arrives(v, 0, LineStart, k, at)
    ensures TakesValueAt(v, k, at)
  {
    hide Spans, SecretText, SecretValue, Arrives;
    forall p: Span | p.keyStart == k && p.stage == at && SecretText(v, p) ensures p in Spans(v, 0, LineStart) {
      SecretValueExactly(v, p);
      SpansAreSecretValues(v, 0, LineStart, p);
    }
  }

  lemma SecretTextKey(v: string, p: Span)
    requires SecretText(v, p)
    ensures p.keyStart < |v| && !Blank(v[p.keyStart]) && !Break(v[p.keyStart])
  {
    hide KeyAt, HoldsSecretWord, UnquotedEndsAt, QuotedValue;
    var key: Key, d: nat :| KeyAt(v, p.keyStart, key) && ValueStartsAt(v, key, d, p.valueStart);
    KeyIsText(v, p.keyStart, key);
  }

  // ---- Behind an empty value ----

  const BLOCK := "token: |\n  x\n"
  const BEHIND_EMPTY := "token:\ntoken: |\n  x\n"

  lemma TokenIsRead(v: string, i: nat)
    requires i + 5 < |v| && v[i..i + 5] == "token" && !NameCharacter(v[i + 5]) && (i > 0 ==> !NameCharacter(v[i - 1]))
    ensures ReadKey(v, i) == Some(Key("token", i + 5, false)) && IsSecretKey("token")
  {
    hide IsSecretKey, ReadKey, KeyEnd;
    ReadKeyExactly(v, i, Key("token", i + 5, false));
    SecretKeysHoldWords("token");
    assert SECRET_WORDS[4] == "TOKEN" && StandsAt("token", 0, SECRET_WORDS[4]);
  }

  lemma AloneIsReplaced()
    ensures Decide(BLOCK, 0, LineStart) == Replace(7, 13, REDACTED)
  {
    hide IsSecretKey, ReadKey, BlockEnd;
    var v := BLOCK;
    TokenIsRead(v, 0);
    assert BlankEnd(v, 5) == 5 && BlankEnd(v, 6) == 7;
    BlockOfAll();
    assert |v[7..13]| == 6;
  }

  lemma BlockOfAll()
    ensures BlockEnd(BLOCK, 7, 0) == Some(13)
  {
    hide LineValueEnd;
    var v := BLOCK;
    assert LineValueEndsAt(v, 7, 8, 8, 8);
    LineValueEndExactly(v, 7, 8);
    assert v[7..8] == "|";
    assert LineBreak(v, 7) == 8 && LineBreak(v, 9) == 12 && BlankEnd(v, 9) == 11;
    assert BlockLines(v, 13, 12, 0) == 13;
  }

  lemma EmptyIsPassed()
    ensures Decide(BEHIND_EMPTY, 0, LineStart) == Copy(7, Content)
  {
    hide IsSecretKey, ReadKey, PlainValueEnd;
    var v := BEHIND_EMPTY;
    TokenIsRead(v, 0);
    assert BlankEnd(v, 5) == 5 && BlankEnd(v, 6) == 6;
    EmptyValueEnd(v, 0, 6, "token", ':', LineStart);
    assert v[6..6] == "";
  }

  lemma HeaderEndsFlow()
    ensures FlowValueEnd(BEHIND_EMPTY, 14) == 15
  {
    var v := BEHIND_EMPTY;
    NotRedacted(v, 14);
    assert FlowStop(v, 14, 15, [], None) == 15;
    assert TrimBack(v, 14, 15) == 15;
  }

  lemma HeaderIsReplaced()
    ensures Decide(BEHIND_EMPTY, 7, Content) == Replace(14, 15, REDACTED)
  {
    hide IsSecretKey, ReadKey, FlowValueEnd;
    var v := BEHIND_EMPTY;
    TokenIsRead(v, 7);
    HeaderEndsFlow();
    assert BlankEnd(v, 12) == 12 && BlankEnd(v, 13) == 14;
    assert v[14..15] == "|";
  }

  lemma ShortIsNotSecret()
    ensures !IsSecretKey("x")
  {
    hide IsSecretKey;
    SecretKeysHoldWords("x");
    assert forall m: nat :: m < |SECRET_WORDS| ==> |SECRET_WORDS[m]| > 1;
  }

  lemma LetterIsPassed()
    ensures Decide(BEHIND_EMPTY, 18, LineStart) == Copy(19, Content)
  {
    hide IsSecretKey, ReadKey;
    ReadKeyExactly(BEHIND_EMPTY, 18, Key("x", 19, false));
    ShortIsNotSecret();
  }

  lemma ScanStep(v: string, i: nat, stage: Stage, next: nat, after: Stage)
    requires i < |v| && Decide(v, i, stage) == Copy(next, after)
    ensures Scan(v, i, stage) == v[i..next] + Scan(v, next, after)
  {
  }

  lemma LineIsCopied()
    ensures Scan(BEHIND_EMPTY, 15, Content) == "\n  x\n"
  {
    hide Scan;
    var v := BEHIND_EMPTY;
    ScanStep(v, 15, Content, 16, LineStart);
    ScanStep(v, 16, LineStart, 17, LineStart);
    ScanStep(v, 17, LineStart, 18, LineStart);
    LetterIsPassed();
    ScanStep(v, 18, LineStart, 19, Content);
    ScanStep(v, 19, Content, 20, LineStart);
    ScanEnd(v);
  }

  lemma ScanEnd(v: string)
    ensures forall stage :: Scan(v, |v|, stage) == ""
  {
  }

  /**
   Behind an empty value a line has lost its head: the block scalar that is replaced as a
   whole when it stands alone is taken for a flow value there, and its lines stay.
  */
  lemma EmptyValueHidesBlock()
    ensures RedactAssignments(BLOCK) == "token: [REDACTED]"
    ensures RedactAssignments(BEHIND_EMPTY) == "token:\ntoken: [REDACTED]\n  x\n"
  {
    BlockAlone();
    BlockBehindEmpty();
  }

  lemma BlockAlone()
    ensures RedactAssignments(BLOCK) == "token: [REDACTED]"
  {
    hide Decide;
    AloneIsReplaced();
    ScanEnd(BLOCK);
  }

  lemma ReplaceStep(v: string, i: nat, stage: Stage, s: nat, e: nat, text: string)
    requires i < |v| && Decide(v, i, stage) == Replace(s, e, text)
    ensures Scan(v, i, stage) == v[i..s] + text + Scan(v, e, Content)
  {
  }

  lemma BlockBehindEmpty()
    ensures RedactAssignments(BEHIND_EMPTY) == "token:\ntoken: [REDACTED]\n  x\n"
  {
    hide Decide, Scan;
    var v := BEHIND_EMPTY;
    EmptyIsPassed();
    ScanStep(v, 0, LineStart, 7, Content);
    HeaderIsReplaced();
    ReplaceStep(v, 7, Content, 14, 15, REDACTED);
    LineIsCopied();
    assert v[0..7] == "token:\n" && v[7..14] == "token: ";
  }
}
