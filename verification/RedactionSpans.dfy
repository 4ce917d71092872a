/**
 What redaction may change: the output is the text with increasing, disjoint spans replaced,
 and each span is the value of a secret key. Also which keys are secret.
*/
module RedactionSpans {
  import opened Options
  import opened Redaction

  /** The value of the key read at `keyStart` in a stage of its line, and what stands for it in the output. */
  datatype Span = Span(keyStart: nat, stage: Stage, valueStart: nat, valueEnd: nat, text: string)

  /** Where the value of a key starts: behind blanks, one delimiter and blanks; None without a value. */
  function ValueStart(v: string, key: Key): (r: Option<nat>)
    requires key.after <= |v|
    ensures r.Some? ==> key.after < r.value < |v| && BlankEnd(v, key.after) < r.value && !IsBlank(v[r.value])
  {
    var d := BlankEnd(v, key.after);
    if d >= |v| || !(v[d] == ':' || v[d] == '=') then None
    else
      var s := BlankEnd(v, d + 1);
      if s >= |v| then None else Some(s)
  }

  /**
   The span is the whole value of a secret key, and the value is neither empty nor redacted
   yet. A quoted value goes to its closing quote, or to the end of the text when there is
   none, and keeps its quotes; the rule of the place decides where an unquoted one ends.
  */
  predicate SecretValue(v: string, p: Span) {
    && p.keyStart < |v| && !IsNewline(v[p.keyStart]) && !IsBlank(v[p.keyStart]) && ReadKey(v, p.keyStart).Some?
    && var key := ReadKey(v, p.keyStart).value;
       && IsSecretKey(key.name) && !IsExport(v, key, p.stage)
       && ValueStart(v, key) == Some(p.valueStart)
       && p.valueStart < p.valueEnd <= |v|
       && var s, c := p.valueStart, v[p.valueStart];
          if IsQuote(c) then
            match QuotedEnd(v, s + 1, c)
            case None =>
              && p.valueEnd == |v| && p.text == [c] + REDACTED
              && v[s + 1..] != "" && v[s + 1..] != REDACTED
            case Some(e) =>
              && p.valueEnd == e && p.text == [c] + REDACTED + [c]
              && v[s + 1..e - 1] != "" && v[s + 1..e - 1] != REDACTED
          else
            && p.valueEnd == PlainValueEnd(v, p.keyStart, s, key.name, v[BlankEnd(v, key.after)], p.stage)
            && p.text == REDACTED && v[s..p.valueEnd] != REDACTED
  }

  /** From index `i` in `stage` the scan arrives at `k` in stage `at`. */
  predicate Arrives(v: string, i: nat, stage: Stage, k: nat, at: Stage)
    requires i <= |v|
    decreases |v| - i
  {
    (i == k && stage == at)
    || (i < |v| && match Decide(v, i, stage)
                   case Copy(next, after) => Arrives(v, next, after, k, at)
                   case Replace(_, e, _) => Arrives(v, e, Content, k, at))
  }

  /** The spans the scan replaces from index `i` on. */
  function Spans(v: string, i: nat, stage: Stage): seq<Span>
    requires i <= |v|
    decreases |v| - i
  {
    if i == |v| then []
    else
      match Decide(v, i, stage)
      case Copy(next, after) => Spans(v, next, after)
      case Replace(s, e, text) => [Span(i, stage, s, e, text)] + Spans(v, e, Content)
  }

  /** The spans lie in `low..high`, in order: each key behind the value before it. */
  predicate InOrder(low: nat, spans: seq<Span>, high: nat)
    decreases |spans|
  {
    spans != [] ==>
      && low <= spans[0].keyStart < spans[0].valueStart < spans[0].valueEnd <= high
      && InOrder(spans[0].valueEnd, spans[1..], high)
  }

  /** The text from `low` on with the spans replaced. */
  function Spliced(v: string, low: nat, spans: seq<Span>): string
    requires low <= |v| && InOrder(low, spans, |v|)
    decreases |spans|
  {
    if spans == [] then v[low..]
    else v[low..spans[0].valueStart] + spans[0].text + Spliced(v, spans[0].valueEnd, spans[1..])
  }

  lemma ValueTexts(v: string, i: nat, s: nat, name: string, delimiter: char, stage: Stage, p: Span)
    requires i <= s < |v| && p.valueStart == s && s < p.valueEnd
    ensures ValueMove(v, i, s, name, delimiter, stage) == Replace(s, p.valueEnd, p.text)
            <==> if IsQuote(v[s]) then
                   match QuotedEnd(v, s + 1, v[s])
                   case None =>
                     && p.valueEnd == |v| && p.text == [v[s]] + REDACTED
                     && v[s + 1..] != "" && v[s + 1..] != REDACTED
                   case Some(e) =>
                     && p.valueEnd == e && p.text == [v[s]] + REDACTED + [v[s]]
                     && v[s + 1..e - 1] != "" && v[s + 1..e - 1] != REDACTED
                 else
                   && p.valueEnd == PlainValueEnd(v, i, s, name, delimiter, stage)
                   && p.text == REDACTED && v[s..p.valueEnd] != REDACTED
  {
    hide PlainValueEnd, QuotedEnd;
  }

  /** The scan replaces a value exactly when it stands at a secret key whose value is neither empty nor redacted. */
  lemma ReplacesExactly(v: string, p: Span)
    requires p.keyStart < |v| && p.keyStart < p.valueStart < p.valueEnd
    ensures Decide(v, p.keyStart, p.stage) == Replace(p.valueStart, p.valueEnd, p.text) <==> SecretValue(v, p)
  {
    hide IsSecretKey, PlainValueEnd, QuotedEnd, ValueMove;
    var key := ReadKey(v, p.keyStart);
    if key.Some? && ValueStart(v, key.value) == Some(p.valueStart) {
      ValueTexts(v, p.keyStart, p.valueStart, key.value.name, v[BlankEnd(v, key.value.after)], p.stage, p);
    }
  }

  /** What the scanner puts out from an index on is the text from there with its spans replaced. */
  lemma {:induction false} ScanReplacesSpans(v: string, i: nat, stage: Stage)
    requires i <= |v|
    ensures InOrder(i, Spans(v, i, stage), |v|)
    ensures Scan(v, i, stage) == Spliced(v, i, Spans(v, i, stage))
    decreases |v| - i
  {
    hide Decide, SecretValue;
    if i < |v| {
      match Decide(v, i, stage) {
        case Copy(next, after) =>
          ScanReplacesSpans(v, next, after);
          LowerSplice(v, i, next, Spans(v, next, after));
        case Replace(s, e, text) =>
          ScanReplacesSpans(v, e, Content);
          assert Spans(v, i, stage)[1..] == Spans(v, e, Content);
      }
    }
  }

  lemma {:induction false} ArrivesBehind(v: string, i: nat, stage: Stage, k: nat, at: Stage)
    requires i <= |v| && Arrives(v, i, stage, k, at)
    ensures i <= k && (i == k ==> stage == at)
    decreases |v| - i
  {
    hide Decide;
    if i < |v| && !(i == k && stage == at) {
      match Decide(v, i, stage) {
        case Copy(next, after) => ArrivesBehind(v, next, after, k, at);
        case Replace(_, e, _) => ArrivesBehind(v, e, Content, k, at);
      }
    }
  }

  /** The spans are exactly the secret values at which the scan arrives. */
  lemma {:induction false} SpansAreSecretValues(v: string, i: nat, stage: Stage, p: Span)
    requires i <= |v|
    ensures p in Spans(v, i, stage) <==> Arrives(v, i, stage, p.keyStart, p.stage) && SecretValue(v, p)
    decreases |v| - i
  {
    hide Decide, SecretValue;
    if i < |v| {
      var m := Decide(v, i, stage);
      var next, after := if m.Copy? then m.next else m.valueEnd, if m.Copy? then m.stage else Content;
      SpansAreSecretValues(v, next, after, p);
      AtKey(v, i, stage, p);
      if Arrives(v, next, after, p.keyStart, p.stage) { ArrivesBehind(v, next, after, p.keyStart, p.stage); }
    } else {
      InText(v, p);
    }
  }

  lemma InText(v: string, p: Span)
    ensures SecretValue(v, p) ==> p.keyStart < |v| && p.keyStart < p.valueStart < p.valueEnd <= |v|
  {
  }

  /** At the key itself the span is the one the scan replaces, or there is none. */
  lemma AtKey(v: string, i: nat, stage: Stage, p: Span)
    requires i < |v|
    ensures p.keyStart == i && p.stage == stage ==>
              (SecretValue(v, p) <==> Decide(v, i, stage) == Replace(p.valueStart, p.valueEnd, p.text))
  {
    hide Decide, SecretValue;
    InText(v, p);
    if i < p.valueStart < p.valueEnd && p.keyStart == i && p.stage == stage {
      ReplacesExactly(v, p);
    }
  }

  lemma LowerSplice(v: string, i: nat, n: nat, spans: seq<Span>)
    requires i <= n <= |v| && InOrder(n, spans, |v|)
    ensures InOrder(i, spans, |v|) && v[i..n] + Spliced(v, n, spans) == Spliced(v, i, spans)
  {
    if spans == [] {
      assert v[i..n] + v[n..] == v[i..];
    } else {
      var s := spans[0].valueStart;
      Joined(v, i, n, s, spans[0].text, Spliced(v, spans[0].valueEnd, spans[1..]));
    }
  }

  lemma Joined(v: string, i: nat, n: nat, s: nat, text: string, rest: string)
    requires i <= n <= s <= |v|
    ensures v[i..n] + (v[n..s] + text + rest) == v[i..s] + text + rest
  {
    assert v[i..s] == v[i..n] + v[n..s];
  }

  /**
   The output is the text with increasing, disjoint spans replaced, and these are exactly
   the secret values at which the scan arrives.
  */
  lemma RedactionReplacesSecretValues(v: string)
    ensures var spans := Spans(v, 0, LineStart);
            && InOrder(0, spans, |v|)
            && (forall p :: p in spans <==> Arrives(v, 0, LineStart, p.keyStart, p.stage) && SecretValue(v, p))
            && RedactAssignments(v) == Spliced(v, 0, spans)
  {
    hide Scan, Spans, SecretValue, Arrives;
    ScanReplacesSpans(v, 0, LineStart);
    forall p ensures p in Spans(v, 0, LineStart)
                     <==> Arrives(v, 0, LineStart, p.keyStart, p.stage) && SecretValue(v, p)
    {
      SpansAreSecretValues(v, 0, LineStart, p);
    }
  }

  /** Without a secret key in the text nothing changes. */
  lemma NothingSecretNothingChanged(v: string)
    requires forall i :: 0 <= i < |v| && ReadKey(v, i).Some? ==> !IsSecretKey(ReadKey(v, i).value.name)
    ensures RedactAssignments(v) == v
  {
    hide IsSecretKey, ReadKey, Scan, Spans, Arrives;
    ScanReplacesSpans(v, 0, LineStart);
    var spans := Spans(v, 0, LineStart);
    if spans != [] {
      assert spans[0] in spans;
      SpansAreSecretValues(v, 0, LineStart, spans[0]);
    }
  }

  // ---- Secret keys ----

  lemma {:induction false} SegmentsOfJoin(a: string, b: string)
    ensures Segments(a + "_" + b) == Segments(a) + Segments(b)
  {
    if a == "" {
      SegmentsStep("" + "_" + b, '_', b);
    } else {
      hide Segments;
      SegmentsOfJoin(a[1..], b);
      SegmentsStep(a, a[0], a[1..]);
      SegmentsStep(a + "_" + b, a[0], a[1..] + "_" + b);
      JoinedFront(a[0], Segments(a[1..]), Segments(b));
    }
  }

  lemma JoinedFront(c: char, left: seq<string>, right: seq<string>)
    requires |left| >= 1
    ensures var all := left + right;
            && [[c] + all[0]] + all[1..] == [[c] + left[0]] + left[1..] + right
            && [""] + all == [""] + left + right
  {
  }

  /** The segments of a text with one more character in front. */
  lemma SegmentsStep(s: string, c: char, rest: string)
    requires s == [c] + rest
    ensures Segments(s) == if c == '_' then [""] + Segments(rest) else [[c] + Segments(rest)[0]] + Segments(rest)[1..]
  {
    assert s[1..] == rest;
  }

  lemma UpperOfJoin(a: string, b: string)
    ensures Upper(a + "_" + b) == Upper(a) + "_" + Upper(b)
  {
  }

  predicate HasMarker(segments: seq<string>) {
    exists m :: 0 <= m < |SECRET_SEGMENT_SEQUENCES| && HasRun(segments, SECRET_SEGMENT_SEQUENCES[m])
  }

  lemma RunInside(left: seq<string>, middle: seq<string>, right: seq<string>)
    requires HasMarker(middle)
    ensures HasMarker(left + middle + right)
  {
    var m :| 0 <= m < |SECRET_SEGMENT_SEQUENCES| && HasRun(middle, SECRET_SEGMENT_SEQUENCES[m]);
    var marker := SECRET_SEGMENT_SEQUENCES[m];
    var i :| 0 <= i <= |middle| && RunAt(middle, marker, i);
    var all := left + middle + right;
    assert all[|left| + i..|left| + i + |marker|] == middle[i..i + |marker|];
    assert RunAt(all, marker, |left| + i);
  }

  predicate IsWord(s: string) { forall k :: 0 <= k < |s| ==> s[k] != '_' }

  lemma {:induction false} SegmentsOfWord(s: string)
    requires IsWord(s)
    ensures Segments(s) == [s]
  {
    if s != "" {
      SegmentsOfWord(s[1..]);
      assert [s[0]] + s[1..] == s;
    }
  }

  lemma MarkerIsMarked(m: nat)
    requires m < |SECRET_SEGMENT_SEQUENCES|
    ensures HasMarker(SECRET_SEGMENT_SEQUENCES[m])
  {
    var marker := SECRET_SEGMENT_SEQUENCES[m];
    assert RunAt(marker, marker, 0);
  }

  /** A word is a marker: number `m`. */
  lemma MarkedWord(a: string, m: nat)
    requires IsWord(a) && m < |SECRET_SEGMENT_SEQUENCES| && SECRET_SEGMENT_SEQUENCES[m] == [a]
    ensures HasMarker(Segments(a))
  {
    SegmentsOfWord(a);
    MarkerIsMarked(m);
  }

  /** Two words joined hold marker number `m`: as a pair, or as one of the words. */
  lemma MarkedPair(key: string, a: string, b: string, m: nat)
    requires key == a + "_" + b && IsWord(a) && IsWord(b) && m < |SECRET_SEGMENT_SEQUENCES|
    requires SECRET_SEGMENT_SEQUENCES[m] in [[a, b], [a], [b]]
    ensures HasMarker(Segments(key))
  {
    hide HasMarker;
    SegmentsOfWord(a);
    SegmentsOfWord(b);
    SegmentsOfJoin(a, b);
    MarkerIsMarked(m);
    var marker := SECRET_SEGMENT_SEQUENCES[m];
    assert [a] + [b] == [a, b];
    if marker == [a] {
      RunInside([], marker, [b]);
      assert [] + marker + [b] == [a, b];
    } else if marker == [b] {
      RunInside([a], marker, []);
      assert [a] + marker + [] == [a, b];
    }
  }

  lemma ExactWordsAreMarked(key: string)
    requires key in ["PASSWORD", "PASSWD", "PWD", "SECRET", "TOKEN", "APIKEY", "CREDENTIAL", "CREDENTIALS"]
    ensures HasMarker(Segments(key))
  {
    hide HasMarker, Segments;
    var words := ["PASSWORD", "PASSWD", "PWD", "SECRET", "TOKEN", "APIKEY", "CREDENTIAL", "CREDENTIALS"];
    var m :| 0 <= m < |words| && words[m] == key;
    MarkedWord(key, m);
  }

  lemma ExactTokensAreMarked(key: string)
    requires key in ["ACCESS_TOKEN", "AUTH_TOKEN", "REFRESH_TOKEN", "GIT_TOKEN", "GITHUB_TOKEN", "GITLAB_TOKEN"]
    ensures HasMarker(Segments(key))
  {
    hide HasMarker, Segments;
    if key == "ACCESS_TOKEN" { MarkedPair(key, "ACCESS", "TOKEN", 4); }
    else if key == "AUTH_TOKEN" { MarkedPair(key, "AUTH", "TOKEN", 4); }
    else if key == "REFRESH_TOKEN" { MarkedPair(key, "REFRESH", "TOKEN", 4); }
    else if key == "GIT_TOKEN" { MarkedPair(key, "GIT", "TOKEN", 4); }
    else if key == "GITHUB_TOKEN" { MarkedPair(key, "GITHUB", "TOKEN", 4); }
    else { MarkedPair(key, "GITLAB", "TOKEN", 4); }
  }

  lemma ExactPairsAreMarked(key: string)
    requires key in ["API_KEY", "FERNET_KEY", "DATABASE_URL", "DB_URL", "CONNECTION_STRING"]
    ensures HasMarker(Segments(key))
  {
    hide HasMarker, Segments;
    if key == "API_KEY" { MarkedPair(key, "API", "KEY", 8); }
    else if key == "FERNET_KEY" { MarkedPair(key, "FERNET", "KEY", 9); }
    else if key == "DATABASE_URL" { MarkedPair(key, "DATABASE", "URL", 11); }
    else if key == "DB_URL" { MarkedPair(key, "DB", "URL", 12); }
    else { MarkedPair(key, "CONNECTION", "STRING", 13); }
  }

  /** Every exact key consists of, or holds, a marker: the segment rule alone decides. */
  lemma ExactKeysAreMarked(key: string)
    requires key in EXACT_SECRET_KEYS
    ensures HasMarker(Segments(key))
  {
    hide HasMarker, Segments;
    if key == "SECRET_KEY" { MarkedPair(key, "SECRET", "KEY", 3); }
    else if key == "CLIENT_SECRET" { MarkedPair(key, "CLIENT", "SECRET", 3); }
    else if key in ["ACCESS_TOKEN", "AUTH_TOKEN", "REFRESH_TOKEN", "GIT_TOKEN", "GITHUB_TOKEN", "GITLAB_TOKEN"] {
      ExactTokensAreMarked(key);
    } else if key in ["API_KEY", "FERNET_KEY", "DATABASE_URL", "DB_URL", "CONNECTION_STRING"] {
      ExactPairsAreMarked(key);
    } else {
      ExactWordsAreMarked(key);
    }
  }

  /** A key is secret exactly when a run of its upper-case segments is a marker. */
  lemma SecretKeysAreMarked(key: string)
    ensures IsSecretKey(key) <==> HasMarker(Segments(Upper(key)))
  {
    hide Segments, HasRun;
    if Upper(key) in EXACT_SECRET_KEYS {
      ExactKeysAreMarked(Upper(key));
    }
  }

  /** Joining more segments to a secret key keeps it secret. */
  lemma JoiningKeepsSecret(a: string, b: string)
    ensures IsSecretKey(a) || IsSecretKey(b) ==> IsSecretKey(a + "_" + b)
  {
    hide *;
    SecretKeysAreMarked(a);
    SecretKeysAreMarked(b);
    SecretKeysAreMarked(a + "_" + b);
    UpperOfJoin(a, b);
    SegmentsOfJoin(Upper(a), Upper(b));
    var left, right := Segments(Upper(a)), Segments(Upper(b));
    assert [] + left + right == left + right && left + right + [] == left + right;
    if HasMarker(left) { RunInside([], left, right); }
    if HasMarker(right) { RunInside(left, right, []); }
  }
}
