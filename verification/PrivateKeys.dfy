/**
 The redaction of private key blocks: what is replaced, and when a second pass finds nothing more.
*/
module PrivateKeys {
  import opened Options
  import opened Redaction

  const BEGIN := "-----BEGIN "
  const MARKER_END := "-----"

  const LABELS: set<string> := {
    "PRIVATE KEY", "RSA PRIVATE KEY", "EC PRIVATE KEY", "DSA PRIVATE KEY", "OPENSSH PRIVATE KEY",
    "ENCRYPTED PRIVATE KEY"
  }

  /** The first `word` at or after `i`. */
  function Find(v: string, word: string, i: nat): (r: Option<nat>)
    requires i <= |v| && word != ""
    ensures r.Some? ==> i <= r.value <= |v| - |word| && StartsAt(v, r.value, word)
    ensures forall k :: i <= k < (if r.Some? then r.value else |v|) ==> !StartsAt(v, k, word)
    decreases |v| - i
  {
    if i == |v| then None else if StartsAt(v, i, word) then Some(i) else Find(v, word, i + 1)
  }

  datatype Header = Ended(at: nat) | Rejected(at: nat)

  /** A line break, or one written as an escape. */
  predicate BreaksAt(v: string, i: nat)
    requires i < |v|
  {
    IsNewline(v[i]) || (v[i] == '\\' && i + 1 < |v| && (v[i + 1] == 'r' || v[i + 1] == 'n'))
  }

  /** The end of the label that starts before `i`: on the same line and before another begin marker. */
  function HeaderEnd(v: string, i: nat): (r: Header)
    requires i <= |v|
    ensures i <= r.at <= |v|
    ensures r.Ended? ==> r.at + |MARKER_END| <= |v| && StartsAt(v, r.at, MARKER_END)
    ensures forall k :: i <= k < r.at ==> !StartsAt(v, k, BEGIN)
    ensures r.Ended? ==> !StartsAt(v, r.at, BEGIN)
    decreases |v| - i
  {
    if i == |v| then Rejected(i)
    else if StartsAt(v, i, BEGIN) then Rejected(i)
    else if StartsAt(v, i, MARKER_END) then Ended(i)
    else if BreaksAt(v, i) then Rejected(i)
    else HeaderEnd(v, i + 1)
  }

  function Footer(name: string): (r: string)
    ensures r != ""
  {
    "-----END " + name + "-----"
  }

  datatype Step =
    | Finish
    | Skip(next: nat)                 // text without a block: copied
    | Block(begin: nat, end: nat)     // a block: replaced, and scanned on behind it

  /** The next step of the pass from `cursor`. */
  function NextStep(v: string, cursor: nat): (r: Step)
    requires cursor <= |v|
    ensures r.Skip? ==> cursor < r.next <= |v|
    ensures r.Block? ==> cursor <= r.begin < r.end <= |v|
  {
    match Find(v, BEGIN, cursor)
    case None => Finish
    case Some(begin) =>
      match HeaderEnd(v, begin + |BEGIN|)
      case Rejected(at) => Skip(at)
      case Ended(at) =>
        var name := v[begin + |BEGIN|..at];
        if name !in LABELS then Skip(at + |MARKER_END|)
        else
          match Find(v, Footer(name), at + |MARKER_END|)
          case None => Block(begin, |v|)
          case Some(f) => Block(begin, f + |Footer(name)|)
  }

  /** The output for the text from `cursor` on. */
  function Pass(v: string, cursor: nat): string
    requires cursor <= |v|
    decreases |v| - cursor
  {
    match NextStep(v, cursor)
    case Finish => v[cursor..]
    case Skip(next) => v[cursor..next] + Pass(v, next)
    case Block(begin, end) => v[cursor..begin] + REDACTED + Pass(v, end)
  }

  function RedactBlocks(v: string): string { Pass(v, 0) }

  // ---- The pass as loops ----

  /** The header scan: stops at the closing hyphens, a break, another begin marker or the end. */
  method ScanHeader(v: string, labelStart: nat) returns (header: Header)
    requires labelStart <= |v|
    ensures header == HeaderEnd(v, labelStart)
  {
    var index := labelStart;
    while index < |v|
      invariant labelStart <= index <= |v|
      invariant HeaderEnd(v, index) == HeaderEnd(v, labelStart)
    {
      if StartsAt(v, index, BEGIN) {
        return Rejected(index);
      }
      if StartsAt(v, index, MARKER_END) {
        return Ended(index);
      }
      if BreaksAt(v, index) {
        return Rejected(index);
      }
      index := index + 1;
    }
    return Rejected(|v|);
  }

  /** The output so far and the pass from the cursor make up the whole output. */
  ghost predicate Passed(v: string, output: string, cursor: nat) {
    cursor <= |v| && output + Pass(v, cursor) == RedactBlocks(v)
  }

  lemma Skips(v: string, output: string, cursor: nat)
    requires Passed(v, output, cursor) && NextStep(v, cursor).Skip?
    ensures Passed(v, output + v[cursor..NextStep(v, cursor).next], NextStep(v, cursor).next)
  {
    hide NextStep;
  }

  lemma Replaces(v: string, output: string, cursor: nat)
    requires Passed(v, output, cursor) && NextStep(v, cursor).Block?
    ensures var s := NextStep(v, cursor);
            Passed(v, output + v[cursor..s.begin] + REDACTED, s.end)
  {
    hide NextStep;
    var s := NextStep(v, cursor);
    var a, b := v[cursor..s.begin], Pass(v, s.end);
    assert output + (a + REDACTED + b) == output + a + REDACTED + b;
  }

  lemma Finishes(v: string, output: string, cursor: nat)
    requires Passed(v, output, cursor) && NextStep(v, cursor).Finish?
    ensures output + v[cursor..] == RedactBlocks(v)
  {
    hide NextStep;
  }

  /** What to do from the cursor: one turn of the loop up to its output. */
  method TakeStep(v: string, cursor: nat) returns (step: Step)
    requires cursor <= |v|
    ensures step == NextStep(v, cursor)
  {
    hide Find, HeaderEnd, LABELS, Footer;
    var found := Find(v, BEGIN, cursor);
    if found.None? {
      return Finish;
    }
    var labelStart := found.value + |BEGIN|;
    var header := ScanHeader(v, labelStart);
    if header.Rejected? {
      return Skip(header.at);
    }
    var behind := header.at + |MARKER_END|;
    if v[labelStart..header.at] !in LABELS {
      return Skip(behind);
    }
    var footer := Footer(v[labelStart..header.at]);
    var footerStart := Find(v, footer, behind);
    if footerStart.None? {
      return Block(found.value, |v|);
    }
    return Block(found.value, footerStart.value + |footer|);
  }

  /** The pass over the text: the output for the text before the cursor, then on from there. */
  method RedactPrivateKeyBlocks(v: string) returns (output: string)
    ensures output == RedactBlocks(v)
  {
    output := "";
    var cursor := 0;
    assert Passed(v, output, cursor);
    hide NextStep, Pass, Passed, RedactBlocks;
    while true
      invariant cursor <= |v| && Passed(v, output, cursor)
      decreases |v| - cursor
    {
      var step := TakeStep(v, cursor);
      match step {
        case Finish =>
          Finishes(v, output, cursor);
          return output + v[cursor..];
        case Skip(next) =>
          Skips(v, output, cursor);
          output := output + v[cursor..next];
          cursor := next;
        case Block(begin, end) =>
          Replaces(v, output, cursor);
          output := output + v[cursor..begin] + REDACTED;
          cursor := end;
      }
    }
  }
}
