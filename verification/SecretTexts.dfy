/**
 The secret values of a text, said of the text alone: which key stands where, where its value
 starts and where it ends. Every rule is characterised exactly.
*/
module SecretTexts {
  import opened Options
  import opened Redaction
  import opened RedactionSpans
  import opened ValueEnds
  import opened BlockScalars
  import opened FlowValues
  import opened SecretNames

  // ---- Keys ----

  predicate Letter(c: char) { 'A' <= c <= 'Z' || 'a' <= c <= 'z' || c == '_' }

  predicate NameCharacter(c: char) { Letter(c) || '0' <= c <= '9' }

  predicate IsName(t: string) { t != "" && Letter(t[0]) && forall c <- t :: NameCharacter(c) }

  /** A key starts at `k`: a name between two equal quotes, or a name with no more of it on either side. */
  predicate KeyAt(v: string, k: nat, key: Key) {
    && k < key.after <= |v| && IsName(key.name)
    && if key.quoted
       then k + 1 < key.after && key.name == v[k + 1..key.after - 1]
            && (v[k] == '"' || v[k] == '\'') && v[key.after - 1] == v[k]
       else key.name == v[k..key.after]
            && (k > 0 ==> !NameCharacter(v[k - 1])) && (key.after < |v| ==> !NameCharacter(v[key.after]))
  }

  lemma KeyEndIs(v: string, i: nat, e: nat)
    requires i <= e <= |v| && (forall k :: i <= k < e ==> NameCharacter(v[k])) && (e < |v| ==> !NameCharacter(v[e]))
    ensures KeyEnd(v, i) == e
  {
    assert KeyEnd(v, i) < |v| ==> !NameCharacter(v[KeyEnd(v, i)]);
    assert e < |v| ==> !IsKeyCharacter(v[e]);
  }

  lemma NameSlice(v: string, i: nat, e: nat)
    requires i < e <= |v|
    ensures IsName(v[i..e]) <==> Letter(v[i]) && forall k :: i <= k < e ==> NameCharacter(v[k])
  {
    var t := v[i..e];
    if IsName(t) {
      forall k | i <= k < e ensures NameCharacter(v[k]) { assert t[k - i] in t; }
    }
  }

  /** The key read at an index is the one that starts there. */
  lemma ReadKeyExactly(v: string, k: nat, key: Key)
    requires k < |v|
    ensures ReadKey(v, k) == Some(key) <==> KeyAt(v, k, key)
  {
    hide IsName, KeyEnd;
    assert forall c :: IsKeyCharacter(c) <==> NameCharacter(c);
    if key.quoted {
      QuotedKeyExactly(v, k, key);
    } else {
      BareKeyExactly(v, k, key);
    }
  }

  lemma QuotedKeyExactly(v: string, k: nat, key: Key)
    requires k < |v| && key.quoted
    ensures ReadKey(v, k) == Some(key) <==> KeyAt(v, k, key)
  {
    hide IsName, KeyEnd;
    assert forall c :: IsKeyCharacter(c) <==> NameCharacter(c);
    if ReadKey(v, k) == Some(key) {
      NameSlice(v, k + 1, key.after - 1);
    }
    if KeyAt(v, k, key) && key.after > k + 2 {
      NameSlice(v, k + 1, key.after - 1);
      KeyEndIs(v, k + 2, key.after - 1);
    } else if KeyAt(v, k, key) {
      NoEmptyName(v[k + 1..key.after - 1]);
    }
  }

  lemma NoEmptyName(t: string)
    requires IsName(t)
    ensures t != ""
  {
  }

  lemma BareKeyExactly(v: string, k: nat, key: Key)
    requires k < |v| && !key.quoted
    ensures ReadKey(v, k) == Some(key) <==> KeyAt(v, k, key)
  {
    hide IsName, KeyEnd;
    assert forall c :: IsKeyCharacter(c) <==> NameCharacter(c);
    if ReadKey(v, k) == Some(key) {
      NameSlice(v, k, key.after);
    }
    if KeyAt(v, k, key) {
      NameSlice(v, k, key.after);
      KeyEndIs(v, k + 1, key.after);
    }
  }

  // ---- Values ----

  /** Behind the key, with blanks around it, a delimiter stands at `d`; the value starts at `s`. */
  predicate ValueStartsAt(v: string, key: Key, d: nat, s: nat) {
    && key.after <= d < s < |v| && (v[d] == ':' || v[d] == '=')
    && (forall k :: key.after <= k < d ==> Blank(v[k])) && (forall k :: d < k < s ==> Blank(v[k])) && !Blank(v[s])
  }

  lemma ValueStartExactly(v: string, key: Key, s: nat)
    requires key.after <= |v|
    ensures ValueStart(v, key) == Some(s) <==> exists d: nat :: ValueStartsAt(v, key, d, s)
    ensures forall d: nat :: ValueStartsAt(v, key, d, s) ==> d == BlankEnd(v, key.after)
  {
    hide BlankEnd;
    var d := BlankEnd(v, key.after);
    assert forall q: nat, t: nat :: ValueStartsAt(v, key, q, t) ==> q == d;
    if d < |v| {
      assert forall t: nat :: ValueStartsAt(v, key, d, t) ==> t == BlankEnd(v, d + 1);
      if ValueStart(v, key) == Some(s) { assert ValueStartsAt(v, key, d, s); }
    }
  }

  ghost predicate BlockAt(v: string, s: nat) {
    exists l: nat, c: nat, e: nat :: LineValueEndsAt(v, s, l, c, e) && Indicator(v[s..e])
  }

  predicate NoLowerCase(name: string) { forall c <- name :: !('a' <= c <= 'z') }

  /**
   Where an unquoted value ends. At the head of its line it is a block scalar or goes to the
   end of the line; elsewhere a colon starts a flow value and an equals sign an inline one.
   An equals sign behind a name in upper case takes the line at its head.
  */
  ghost predicate UnquotedEndsAt(v: string, k: nat, name: string, delimiter: char, head: bool, s: nat, e: nat)
    requires s <= |v|
  {
    if head && delimiter == ':' && BlockAt(v, s) then BlockEndsAt(v, s, k, e)
    else if head && (delimiter == ':' || NoLowerCase(name)) then exists l: nat, c: nat :: LineValueEndsAt(v, s, l, c, e)
    else if StartsAt(v, s, "[REDACTED]") then e == s + 10
    else if delimiter == ':' then FlowEndsAt(v, s, e)
    else s <= e <= |v| && (forall j :: s <= j < e ==> !InlineStopper(v[j])) && (e < |v| ==> InlineStopper(v[e]))
  }

  lemma UpperExactly(name: string)
    ensures name == Upper(name) <==> NoLowerCase(name)
  {
    if name == Upper(name) {
      forall c | c in name ensures !('a' <= c <= 'z') {
        var i :| 0 <= i < |name| && name[i] == c;
        assert Upper(name)[i] == UpperChar(c);
      }
    } else {
      var i :| 0 <= i < |name| && name[i] != Upper(name)[i];
      assert name[i] in name;
    }
  }

  lemma BlockAtExactly(v: string, s: nat, k: nat)
    requires s <= |v| && k <= |v|
    ensures BlockAt(v, s) <==> BlockEnd(v, s, k).Some?
  {
    hide LineValueEnd, Indicator;
    var he := LineValueEnd(v, s);
    BlockEndExactly(v, s, k, 0);
    LineValueEndExactly(v, s, he);
    if BlockAt(v, s) {
      var l: nat, c: nat, e: nat :| LineValueEndsAt(v, s, l, c, e) && Indicator(v[s..e]);
      LineValueEndExactly(v, s, e);
    }
  }

  lemma PlainValueEndExactly(v: string, k: nat, s: nat, name: string, delimiter: char, stage: Stage, e: nat)
    requires k <= s < |v| && (delimiter == ':' || delimiter == '=')
    ensures PlainValueEnd(v, k, s, name, delimiter, stage) == e
            <==> UnquotedEndsAt(v, k, name, delimiter, stage != Content, s, e)
  {
    hide BlockEnd, LineValueEnd, FlowValueEnd, InlineValueEnd, BlockAt, BlockEndsAt, FlowEndsAt;
    hide Upper, NoLowerCase;
    BlockAtExactly(v, s, k);
    BlockEndExactly(v, s, k, e);
    LineValueEndExactly(v, s, e);
    FlowValueEndExactly(v, s, e);
    InlineValueEndExactly(v, s, e);
    UpperExactly(name);
  }

  // ---- Secret values ----

  /** The value is `inner` between quotes, or without the closing one at the end of the text. */
  ghost predicate QuotedValue(v: string, s: nat, e: nat, text: string) {
    && s < e <= |v|
    && if QuotedTo(v, s, e) then v[s + 1..e - 1] !in ["", "[REDACTED]"] && text == [v[s]] + "[REDACTED]" + [v[s]]
       else e == |v| && (forall j: nat :: !QuotedTo(v, s, j))
            && v[s + 1..] !in ["", "[REDACTED]"] && text == [v[s]] + "[REDACTED]"
  }

  /** The span is the whole value of a secret key, and the value is neither empty nor redacted yet. */
  ghost predicate SecretText(v: string, p: Span) {
    exists key: Key, d: nat ::
      && KeyAt(v, p.keyStart, key) && HoldsSecretWord(key.name) && ValueStartsAt(v, key, d, p.valueStart)
      && if v[p.valueStart] == '"' || v[p.valueStart] == '\''
         then QuotedValue(v, p.valueStart, p.valueEnd, p.text)
         else UnquotedEndsAt(v, p.keyStart, key.name, v[d], p.stage != Content, p.valueStart, p.valueEnd)
              && p.valueStart < p.valueEnd <= |v|
              && v[p.valueStart..p.valueEnd] != "[REDACTED]" && p.text == "[REDACTED]"
  }

  lemma ExportIsNotSecret()
    ensures !IsSecretKey("export")
  {
    hide IsSecretKey;
    SecretKeysHoldWords("export");
    forall m: nat, i: nat | m < |SECRET_WORDS| ensures !StandsAt("export", i, SECRET_WORDS[m]) {
      assert IsWord("export") && "export"[0] == 'e';
      assert SECRET_WORDS[m][0] in {'P', 'S', 'T', 'A', 'C', 'F', 'D'};
      assert !SameLetter('e', SECRET_WORDS[m][0]);
    }
  }

  lemma QuotedValueExactly(v: string, p: Span)
    requires p.valueStart < p.valueEnd <= |v| && IsQuote(v[p.valueStart])
    ensures QuotedValue(v, p.valueStart, p.valueEnd, p.text)
            <==> match QuotedEnd(v, p.valueStart + 1, v[p.valueStart])
                 case None =>
                   && p.valueEnd == |v| && p.text == [v[p.valueStart]] + REDACTED
                   && v[p.valueStart + 1..] != "" && v[p.valueStart + 1..] != REDACTED
                 case Some(e) =>
                   && p.valueEnd == e && p.text == [v[p.valueStart]] + REDACTED + [v[p.valueStart]]
                   && v[p.valueStart + 1..e - 1] != "" && v[p.valueStart + 1..e - 1] != REDACTED
  {
    hide QuotedEnd, Closes;
    var s := p.valueStart;
    forall e: nat ensures QuotedEnd(v, s + 1, v[s]) == Some(e) <==> QuotedTo(v, s, e) {
      QuotedEndExactly(v, s + 1, v[s], e);
    }
    assert QuotedEnd(v, s + 1, v[s]).Some? ==> QuotedTo(v, s, QuotedEnd(v, s + 1, v[s]).value);
  }

  /** What the scan replaces is a secret value in the terms of the text. */
  lemma SecretValueExactly(v: string, p: Span)
    ensures SecretValue(v, p) <==> SecretText(v, p)
  {
    hide IsSecretKey, HoldsSecretWord, ReadKey, KeyAt, ValueStart, ValueStartsAt, BlankEnd, PlainValueEnd;
    hide UnquotedEndsAt, QuotedValue, QuotedEnd;
    TextInside(v, p);
    if p.keyStart < |v| {
      forall key ensures ReadKey(v, p.keyStart) == Some(key) <==> KeyAt(v, p.keyStart, key) {
        ReadKeyExactly(v, p.keyStart, key);
      }
      var key := ReadKey(v, p.keyStart);
      if key.Some? {
        KeyIsText(v, p.keyStart, key.value);
        ExportIsNotSecret();
        SecretKeysHoldWords(key.value.name);
        ValueStartExactly(v, key.value, p.valueStart);
        if ValueStart(v, key.value) == Some(p.valueStart) && p.valueStart < p.valueEnd <= |v| {
          var d: nat :| ValueStartsAt(v, key.value, d, p.valueStart);
          ValuePlaces(v, key.value, d, p.valueStart);
          if IsQuote(v[p.valueStart]) {
            QuotedValueExactly(v, p);
          } else {
            PlainValueEndExactly(v, p.keyStart, p.valueStart, key.value.name, v[d], p.stage, p.valueEnd);
          }
        }
      }
    }
  }

  lemma TextInside(v: string, p: Span)
    ensures SecretText(v, p) ==> p.keyStart < |v| && p.valueStart < p.valueEnd <= |v|
  {
    hide UnquotedEndsAt, HoldsSecretWord;
  }

  lemma KeyIsText(v: string, k: nat, key: Key)
    requires KeyAt(v, k, key)
    ensures k < |v| && !Blank(v[k]) && !Break(v[k]) && v[k] != '-'
  {
    if !key.quoted { assert v[k] == key.name[0]; }
  }

  lemma ValuePlaces(v: string, key: Key, d: nat, s: nat)
    requires ValueStartsAt(v, key, d, s)
    ensures key.after <= d < s < |v| && (v[d] == ':' || v[d] == '=')
  {
  }
}
