/**
 The scanners as loops over one index: each returns what the functions of `Redaction` say,
 and its loop always moves forward within the text.
*/
module RedactionScanner {
  import opened Options
  import opened Redaction

  // ---- Searching ----

  /** The first `c` at or after `i`, or the end. */
  function IndexOf(v: string, c: char, i: nat): (r: nat)
    requires i <= |v|
    ensures i <= r <= |v|
    ensures forall k :: i <= k < r ==> v[k] != c
    ensures r < |v| ==> v[r] == c
    decreases |v| - i
  {
    if i == |v| || v[i] == c then i else IndexOf(v, c, i + 1)
  }

  /** Behind the last `c` before `k`, or the start. */
  function AfterLast(v: string, c: char, k: nat): (r: nat)
    requires k <= |v|
    ensures r <= k
  {
    if k == 0 || v[k - 1] == c then k else AfterLast(v, c, k - 1)
  }

  function Min(a: nat, b: nat): nat { if a <= b then a else b }

  function Max(a: nat, b: nat): nat { if a <= b then b else a }

  lemma {:induction false} FirstBreak(v: string, i: nat)
    requires i <= |v|
    ensures Min(IndexOf(v, '\r', i), IndexOf(v, '\n', i)) == LineBreak(v, i)
    decreases |v| - i
  {
    if i < |v| && !IsNewline(v[i]) {
      FirstBreak(v, i + 1);
    }
  }

  lemma {:induction false} LastBreak(v: string, k: nat)
    requires k <= |v|
    ensures Max(AfterLast(v, '\n', k), AfterLast(v, '\r', k)) == LineBegin(v, k)
  {
    if k > 0 && !IsNewline(v[k - 1]) {
      LastBreak(v, k - 1);
    }
  }

  // ---- Where values end ----

  method QuotedValueEnd(v: string, quoteStart: nat) returns (end: Option<nat>)
    requires quoteStart < |v| && IsQuote(v[quoteStart])
    ensures end == QuotedEnd(v, quoteStart + 1, v[quoteStart])
  {
    var quote := v[quoteStart];
    var index := quoteStart + 1;
    while index < |v|
      invariant index <= |v|
      invariant QuotedEnd(v, index, quote) == QuotedEnd(v, quoteStart + 1, quote)
    {
      var c := v[index];
      if c == '\\' && quote == '"' {
        index := Min(index + 2, |v|);
      } else if c == quote {
        if quote == '\'' && index + 1 < |v| && v[index + 1] == '\'' {
          index := index + 2;
        } else {
          return Some(index + 1);
        }
      } else {
        index := index + 1;
      }
    }
    return None;
  }

  method TrimBlanks(v: string, low: nat, e: nat) returns (end: nat)
    requires low <= e <= |v|
    ensures end == TrimBack(v, low, e)
  {
    end := e;
    while end > low && IsBlank(v[end - 1])
      invariant low <= end <= e
      invariant TrimBack(v, low, end) == TrimBack(v, low, e)
    {
      end := end - 1;
    }
  }

  method EndOfLineValue(v: string, valueStart: nat) returns (end: nat)
    requires valueStart <= |v|
    ensures end == LineValueEnd(v, valueStart)
  {
    var lineEnd := Min(IndexOf(v, '\r', valueStart), IndexOf(v, '\n', valueStart));
    FirstBreak(v, valueStart);
    var index := valueStart;
    while index < lineEnd
      invariant valueStart <= index <= lineEnd
      invariant CommentStart(v, valueStart, index, lineEnd) == CommentStart(v, valueStart, valueStart, lineEnd)
    {
      if v[index] == '#' && index > valueStart && IsBlank(v[index - 1]) {
        break;
      }
      index := index + 1;
    }
    end := TrimBlanks(v, valueStart, index);
  }

  method NextLineBreak(v: string, start: nat) returns (break_: nat, next: nat)
    requires start <= |v|
    ensures break_ == LineBreak(v, start) && next == NextLine(v, break_)
  {
    var index := start;
    while index < |v| && !IsNewline(v[index])
      invariant start <= index <= |v|
      invariant LineBreak(v, index) == LineBreak(v, start)
    {
      index := index + 1;
    }
    if index == |v| {
      return index, index;
    }
    if v[index] == '\r' && index + 1 < |v| && v[index + 1] == '\n' {
      return index, index + 2;
    }
    return index, index + 1;
  }

  lemma {:induction false} BlanksUpTo(v: string, line: nat, b: nat, first: nat)
    requires line <= first <= b <= |v| && (b < |v| ==> IsNewline(v[b]))
    requires (forall k :: line <= k < first ==> IsBlank(v[k])) && (first < b ==> !IsBlank(v[first]))
    ensures BlankEnd(v, line) == first
    decreases first - line
  {
    if line < first {
      BlanksUpTo(v, line + 1, b, first);
    }
  }

  method BlockScalarEnd(v: string, valueStart: nat, keyStart: nat) returns (end: Option<nat>)
    requires valueStart <= |v| && keyStart <= |v|
    ensures end == BlockEnd(v, valueStart, keyStart)
  {
    hide LineBreak, LineValueEnd, IsBlockIndicator, BlankEnd, LineBegin, AfterLast, TrimBack, CommentStart;
    var indicatorEnd := EndOfLineValue(v, valueStart);
    if !IsBlockIndicator(v[valueStart..indicatorEnd]) {
      return None;
    }
    var preceding: nat, lineStart: nat := NextLineBreak(v, valueStart);
    if lineStart == preceding {
      return Some(|v|);
    }
    var lineBegin := Max(AfterLast(v, '\n', keyStart), AfterLast(v, '\r', keyStart));
    LastBreak(v, keyStart);
    var indent := keyStart - lineBegin;
    while lineStart < |v|
      invariant preceding < lineStart <= |v| && IsNewline(v[preceding])
      invariant BlockEnd(v, valueStart, keyStart) == Some(BlockLines(v, lineStart, preceding, indent))
      decreases |v| - lineStart
    {
      var lineBreak, nextLine := NextLineBreak(v, lineStart);
      var first := lineStart;
      while first < lineBreak && IsBlank(v[first])
        invariant lineStart <= first <= lineBreak
        invariant forall k :: lineStart <= k < first ==> IsBlank(v[k])
      {
        first := first + 1;
      }
      BlanksUpTo(v, lineStart, lineBreak, first);
      if first < lineBreak && first - lineStart <= indent {
        return Some(preceding);
      }
      if nextLine == lineBreak {
        return Some(|v|);
      }
      preceding, lineStart := lineBreak, nextLine;
    }
    return Some(|v|);
  }

  method EndOfFlowValue(v: string, valueStart: nat) returns (end: nat)
    requires valueStart <= |v|
    ensures end == FlowValueEnd(v, valueStart)
  {
    if StartsAt(v, valueStart, REDACTED) {
      return valueStart + |REDACTED|;
    }
    var index := valueStart;
    var delimiters: seq<char> := [];
    var quote: Option<char> := None;
    while index < |v|
      invariant valueStart <= index <= |v|
      invariant FlowStop(v, valueStart, index, delimiters, quote) == FlowStop(v, valueStart, valueStart, [], None)
      decreases |v| - index
    {
      var c := v[index];
      if quote.Some? {
        if c == '\\' && quote.value == '"' {
          index := Min(index + 2, |v|);
        } else if c == quote.value && c == '\'' && index + 1 < |v| && v[index + 1] == '\'' {
          index := index + 2;
        } else {
          if c == quote.value {
            quote := None;
          }
          index := index + 1;
        }
      } else if IsQuote(c) {
        quote := Some(c);
        index := index + 1;
      } else if c == '[' || c == '{' {
        delimiters := delimiters + [c];
        index := index + 1;
      } else if c == ']' || c == '}' {
        if delimiters == [] {
          break;
        }
        delimiters := delimiters[..|delimiters| - 1];
        index := index + 1;
      } else if c == ',' && delimiters == [] {
        break;
      } else if c == '#' && index > valueStart && IsBlank(v[index - 1]) {
        if delimiters == [] {
          break;
        }
        var _, next := NextLineBreak(v, index);
        index := next;
      } else if IsNewline(c) && delimiters == [] {
        break;
      } else {
        index := index + 1;
      }
    }
    end := TrimBlanks(v, valueStart, index);
  }

  method EndOfInlineValue(v: string, valueStart: nat) returns (end: nat)
    requires valueStart <= |v|
    ensures end == InlineValueEnd(v, valueStart)
  {
    if StartsAt(v, valueStart, REDACTED) {
      return valueStart + |REDACTED|;
    }
    end := valueStart;
    while end < |v| && !EndsInline(v[end])
      invariant valueStart <= end <= |v|
      invariant InlineStop(v, end) == InlineStop(v, valueStart)
    {
      end := end + 1;
    }
  }

  // ---- Secret keys ----

  method ClassifyKey(key: string) returns (secret: bool)
    ensures secret == IsSecretKey(key)
  {
    var normalized := Upper(key);
    if normalized in EXACT_SECRET_KEYS {
      return true;
    }
    var segments := Segments(normalized);
    for m := 0 to |SECRET_SEGMENT_SEQUENCES|
      invariant forall k :: 0 <= k < m ==> !HasRun(segments, SECRET_SEGMENT_SEQUENCES[k])
    {
      if HasRun(segments, SECRET_SEGMENT_SEQUENCES[m]) {
        return true;
      }
    }
    return false;
  }

  // ---- The scan ----

  method EndOfKey(v: string, start: nat) returns (end: nat)
    requires start <= |v|
    ensures end == KeyEnd(v, start)
  {
    end := start;
    while end < |v| && IsKeyCharacter(v[end])
      invariant start <= end <= |v|
      invariant KeyEnd(v, end) == KeyEnd(v, start)
    {
      end := end + 1;
    }
  }

  method SkipBlanks(v: string, start: nat) returns (end: nat)
    requires start <= |v|
    ensures end == BlankEnd(v, start)
  {
    end := start;
    while end < |v| && IsBlank(v[end])
      invariant start <= end <= |v|
      invariant BlankEnd(v, end) == BlankEnd(v, start)
    {
      end := end + 1;
    }
  }

  /** The key at an index, read with the loops above. */
  method FindKey(v: string, index: nat) returns (key: Option<Key>)
    requires index < |v|
    ensures key == ReadKey(v, index)
  {
    if IsQuote(v[index]) {
      if index + 1 >= |v| || !IsKeyStart(v[index + 1]) {
        return None;
      }
      var end := EndOfKey(v, index + 2);
      if end >= |v| || v[end] != v[index] {
        return None;
      }
      return Some(Key(v[index + 1..end], end + 1, true));
    }
    if IsKeyStart(v[index]) && (index == 0 || !IsKeyCharacter(v[index - 1])) {
      var end := EndOfKey(v, index + 1);
      return Some(Key(v[index..end], end, false));
    }
    return None;
  }

  method EndOfPlainValue(v: string, keyStart: nat, valueStart: nat, name: string, delimiter: char, stage: Stage)
    returns (end: nat)
    requires keyStart <= valueStart < |v|
    ensures end == PlainValueEnd(v, keyStart, valueStart, name, delimiter, stage)
  {
    if delimiter == ':' && !stage.Content? {
      var block := BlockScalarEnd(v, valueStart, keyStart);
      if block.Some? {
        end := block.value;
      } else {
        end := EndOfLineValue(v, valueStart);
      }
    } else if delimiter == '=' && name == Upper(name) && !stage.Content? {
      end := EndOfLineValue(v, valueStart);
    } else if delimiter == ':' {
      end := EndOfFlowValue(v, valueStart);
    } else {
      end := EndOfInlineValue(v, valueStart);
    }
  }

  /** What the scan does with the value at `valueStart`. */
  method MoveAtValue(v: string, keyStart: nat, valueStart: nat, name: string, delimiter: char, stage: Stage)
    returns (m: Move)
    requires keyStart <= valueStart < |v|
    ensures m == ValueMove(v, keyStart, valueStart, name, delimiter, stage)
  {
    hide QuotedEnd, PlainValueEnd;
    var end: nat, replacement, secret;
    var first := v[valueStart];
    if IsQuote(first) {
      var closed := QuotedValueEnd(v, valueStart);
      if closed.None? {
        end := |v|;
        replacement := [first] + REDACTED;
        secret := v[valueStart + 1..];
      } else {
        end := closed.value;
        replacement := [first] + REDACTED + [v[end - 1]];
        secret := v[valueStart + 1..end - 1];
      }
    } else {
      end := EndOfPlainValue(v, keyStart, valueStart, name, delimiter, stage);
      replacement := REDACTED;
      secret := v[valueStart..end];
    }
    if secret == "" || secret == REDACTED {
      return Copy(Max(end, valueStart + 1), Content);
    }
    return Replace(valueStart, end, replacement);
  }

  /** The output once the text up to `index` is scanned and what lies behind `kept` is still to be copied. */
  ghost predicate Scanned(v: string, output: string, kept: nat, index: nat, stage: Stage) {
    kept <= index <= |v| && output + v[kept..index] + Scan(v, index, stage) == RedactAssignments(v)
  }

  lemma Copies(v: string, output: string, kept: nat, index: nat, stage: Stage, next: nat, after: Stage)
    requires index < |v| && Scanned(v, output, kept, index, stage) && Decide(v, index, stage) == Copy(next, after)
    ensures Scanned(v, output, kept, next, after)
  {
    hide Decide;
    var rest := Scan(v, next, after);
    assert v[kept..next] == v[kept..index] + v[index..next];
    assert output + v[kept..next] + rest == output + v[kept..index] + (v[index..next] + rest);
  }

  lemma Replaces(v: string, output: string, kept: nat, index: nat, stage: Stage, s: nat, e: nat, text: string)
    requires index < |v| && Scanned(v, output, kept, index, stage) && Decide(v, index, stage) == Replace(s, e, text)
    ensures Scanned(v, output + v[kept..s] + text, e, e, Content)
  {
    hide Decide;
    var rest := Scan(v, e, Content);
    assert v[kept..s] == v[kept..index] + v[index..s];
    assert output + v[kept..s] + text + v[e..e] + rest == output + v[kept..index] + (v[index..s] + text + rest);
  }

  /** Redacts assignments in one pass: `kept` is where the text not copied yet begins. */
  method Redact(v: string) returns (redacted: string)
    ensures redacted == RedactAssignments(v)
  {
    hide ReadKey, SecretMove, ValueMove, Scan, RedactAssignments, Scanned, IsSecretKey, BlankEnd;
    var output := "";
    var kept, index := 0, 0;
    var stage := LineStart;
    Begins(v);
    while index < |v|
      invariant kept <= index <= |v| && Scanned(v, output, kept, index, stage)
      decreases |v| - index
    {
      var m := NextMove(v, index, stage);
      match m {
        case Copy(next, after) =>
          Copies(v, output, kept, index, stage, next, after);
          index, stage := next, after;
        case Replace(valueStart, valueEnd, replacement) =>
          Replaces(v, output, kept, index, stage, valueStart, valueEnd, replacement);
          output := output + v[kept..valueStart] + replacement;
          kept, index, stage := valueEnd, valueEnd, Content;
      }
    }
    Ends(v, output, kept, stage);
    return output + v[kept..];
  }

  lemma Begins(v: string)
    ensures Scanned(v, "", 0, 0, LineStart)
  {
  }

  lemma Ends(v: string, output: string, kept: nat, stage: Stage)
    requires Scanned(v, output, kept, |v|, stage)
    ensures output + v[kept..] == RedactAssignments(v)
  {
    assert v[kept..|v|] == v[kept..];
  }

  /** The body of the scan: one move. */
  method NextMove(v: string, index: nat, stage: Stage) returns (m: Move)
    requires index < |v|
    ensures m == Decide(v, index, stage)
  {
    hide ReadKey, ValueMove, IsSecretKey, BlankEnd, IsBlank, IsNewline;
    if IsNewline(v[index]) {
      return Copy(index + 1, LineStart);
    }
    if IsBlank(v[index]) {
      return Copy(index + 1, stage);
    }
    if v[index] == '-' && stage.LineStart? {
      return Copy(index + 1, Dash);
    }
    var found := FindKey(v, index);
    if found.None? {
      return Copy(index + 1, Content);
    }
    var key := found.value;
    if IsExport(v, key, stage) {
      return Copy(key.after, Export);
    }
    var secret := ClassifyKey(key.name);
    if !secret {
      return Copy(key.after, Content);
    }
    var delimiter := SkipBlanks(v, key.after);
    if delimiter >= |v| || !(v[delimiter] == ':' || v[delimiter] == '=') {
      return Copy(delimiter, Content);
    }
    var valueStart := SkipBlanks(v, delimiter + 1);
    if valueStart >= |v| {
      return Copy(|v|, Content);
    }
    m := MoveAtValue(v, index, valueStart, key.name, v[delimiter], stage);
  }
}
