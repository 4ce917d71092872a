/**
 The assignment scanner of the secret redaction, as functions of the text and an index.
 Letters and digits are the ASCII ones.
*/
module Redaction {
  import opened Options

  const REDACTED := "[REDACTED]"

  datatype Stage = LineStart | Dash | Export | Content

  /** What the scanner does at an index: copy up to `next`, or replace a value. */
  datatype Move =
    | Copy(next: nat, stage: Stage)
    | Replace(valueStart: nat, valueEnd: nat, text: string)

  datatype Key = Key(name: string, after: nat, quoted: bool)

  predicate IsBlank(c: char) { c == ' ' || c == '\t' }

  predicate IsNewline(c: char) { c == '\r' || c == '\n' }

  predicate IsQuote(c: char) { c == '"' || c == '\'' }

  predicate IsKeyStart(c: char) { 'a' <= c <= 'z' || 'A' <= c <= 'Z' || c == '_' }

  predicate IsKeyCharacter(c: char) { IsKeyStart(c) || '0' <= c <= '9' }

  function UpperChar(c: char): char {
    if 'a' <= c <= 'z' then ((c as int) - 32) as char else c
  }

  function Upper(s: string): string {
    seq(|s|, i requires 0 <= i < |s| => UpperChar(s[i]))
  }

  // ---- Secret keys ----

  const EXACT_SECRET_KEYS: set<string> := {
    "PASSWORD", "PASSWD", "PWD", "SECRET", "SECRET_KEY", "CLIENT_SECRET", "API_KEY", "APIKEY", "ACCESS_TOKEN",
    "AUTH_TOKEN", "REFRESH_TOKEN", "TOKEN", "FERNET_KEY", "GIT_TOKEN", "GITHUB_TOKEN", "GITLAB_TOKEN",
    "DATABASE_URL", "DB_URL", "CONNECTION_STRING", "CREDENTIAL", "CREDENTIALS"
  }

  const SECRET_SEGMENT_SEQUENCES: seq<seq<string>> := [
    ["PASSWORD"], ["PASSWD"], ["PWD"], ["SECRET"], ["TOKEN"], ["APIKEY"], ["CREDENTIAL"], ["CREDENTIALS"],
    ["API", "KEY"], ["FERNET", "KEY"], ["PRIVATE", "KEY"], ["DATABASE", "URL"], ["DB", "URL"],
    ["CONNECTION", "STRING"]
  ]

  /** `split("_")`. */
  function Segments(s: string): (r: seq<string>)
    ensures |r| >= 1
  {
    if s == "" then [""]
    else
      var rest := Segments(s[1..]);
      if s[0] == '_' then [""] + rest else [[s[0]] + rest[0]] + rest[1..]
  }

  predicate RunAt(segments: seq<string>, marker: seq<string>, i: nat) {
    i + |marker| <= |segments| && segments[i..i + |marker|] == marker
  }

  predicate HasRun(segments: seq<string>, marker: seq<string>) {
    exists i :: 0 <= i <= |segments| && RunAt(segments, marker, i)
  }

  predicate IsSecretKey(key: string) {
    var normalized := Upper(key);
    normalized in EXACT_SECRET_KEYS
    || exists m :: 0 <= m < |SECRET_SEGMENT_SEQUENCES| && HasRun(Segments(normalized), SECRET_SEGMENT_SEQUENCES[m])
  }

  // ---- Runs of characters ----

  function KeyEnd(v: string, i: nat): (r: nat)
    requires i <= |v|
    ensures i <= r <= |v|
    ensures forall k :: i <= k < r ==> IsKeyCharacter(v[k])
    ensures r < |v| ==> !IsKeyCharacter(v[r])
    decreases |v| - i
  {
    if i < |v| && IsKeyCharacter(v[i]) then KeyEnd(v, i + 1) else i
  }

  function BlankEnd(v: string, i: nat): (r: nat)
    requires i <= |v|
    ensures i <= r <= |v|
    ensures forall k :: i <= k < r ==> IsBlank(v[k])
    ensures r < |v| ==> !IsBlank(v[r])
    decreases |v| - i
  {
    if i < |v| && IsBlank(v[i]) then BlankEnd(v, i + 1) else i
  }

  /** The first line break at or after `i`, or the end. */
  function LineBreak(v: string, i: nat): (r: nat)
    requires i <= |v|
    ensures i <= r <= |v|
    ensures forall k :: i <= k < r ==> !IsNewline(v[k])
    ensures r < |v| ==> IsNewline(v[r])
    decreases |v| - i
  {
    if i < |v| && !IsNewline(v[i]) then LineBreak(v, i + 1) else i
  }

  /** Where the next line starts, given the break at `b`; the end stands for itself. */
  function NextLine(v: string, b: nat): (r: nat)
    requires b <= |v|
    ensures b <= r <= |v| && (b < |v| ==> b < r)
  {
    if b == |v| then b
    else if v[b] == '\r' && b + 1 < |v| && v[b + 1] == '\n' then b + 2
    else b + 1
  }

  /** The start of the line that holds position `k`. */
  function LineBegin(v: string, k: nat): (r: nat)
    requires k <= |v|
    ensures r <= k
  {
    if k == 0 || IsNewline(v[k - 1]) then k else LineBegin(v, k - 1)
  }

  function TrimBack(v: string, low: nat, e: nat): (r: nat)
    requires low <= e <= |v|
    ensures low <= r <= e
    ensures r > low ==> !IsBlank(v[r - 1])
    ensures low < e && !IsBlank(v[low]) ==> low < r
    ensures forall k :: r <= k < e ==> IsBlank(v[k])
    decreases e
  {
    if e > low && IsBlank(v[e - 1]) then TrimBack(v, low, e - 1) else e
  }

  predicate StartsAt(v: string, i: nat, word: string) {
    i + |word| <= |v| && v[i..i + |word|] == word
  }

  // ---- Where values end ----

  /** The end of a quoted value, scanning from `i`; None when the quote is never closed. */
  function QuotedEnd(v: string, i: nat, quote: char): (r: Option<nat>)
    requires i <= |v| && IsQuote(quote)
    ensures r.Some? ==> i < r.value <= |v| && v[r.value - 1] == quote
                        && (quote == '\'' && r.value < |v| ==> v[r.value] != '\'')
    decreases |v| - i
  {
    if i >= |v| then None
    else if v[i] == '\\' && quote == '"' then QuotedEnd(v, if i + 2 <= |v| then i + 2 else |v|, quote)
    else if v[i] == quote then
      if quote == '\'' && i + 1 < |v| && v[i + 1] == '\'' then QuotedEnd(v, i + 2, quote) else Some(i + 1)
    else QuotedEnd(v, i + 1, quote)
  }

  /** The first comment sign after a blank in `i..e`, or `e`. */
  function CommentStart(v: string, low: nat, i: nat, e: nat): (r: nat)
    requires low <= i <= e <= |v|
    ensures i <= r <= e
    ensures r < e ==> r > low && v[r] == '#' && IsBlank(v[r - 1])
    ensures forall k :: i <= k < r && v[k] == '#' && k > low ==> !IsBlank(v[k - 1])
    decreases e - i
  {
    if i >= e || (v[i] == '#' && i > low && IsBlank(v[i - 1])) then i else CommentStart(v, low, i + 1, e)
  }

  function LineValueEnd(v: string, s: nat): (r: nat)
    requires s <= |v|
    ensures s <= r <= |v|
  {
    TrimBack(v, s, CommentStart(v, s, s, LineBreak(v, s)))
  }

  predicate IsBlockIndicator(indicator: string) {
    && 1 <= |indicator| <= 3 && (indicator[0] == '|' || indicator[0] == '>')
    && (|indicator| == 2 ==> IsChomp(indicator[1]) || IsIndent(indicator[1]))
    && (|indicator| == 3 ==>
          || (IsChomp(indicator[1]) && IsIndent(indicator[2]))
          || (IsIndent(indicator[1]) && IsChomp(indicator[2])))
  }

  predicate IsChomp(c: char) { c == '+' || c == '-' }

  predicate IsIndent(c: char) { '1' <= c <= '9' }

  /** The lines of a block scalar from `line` on: it ends at the break before the first outdented line. */
  function BlockLines(v: string, line: nat, preceding: nat, indent: int): (r: nat)
    requires preceding < line <= |v| && IsNewline(v[preceding])
    ensures preceding <= r <= |v| && (r < |v| ==> IsNewline(v[r]))
    decreases |v| - line
  {
    if line >= |v| then |v|
    else
      var b := LineBreak(v, line);
      var first := BlankEnd(v, line);
      if first < b && first - line <= indent then preceding
      else if NextLine(v, b) == b then |v|
      else BlockLines(v, NextLine(v, b), b, indent)
  }

  function BlockEnd(v: string, s: nat, keyStart: nat): (r: Option<nat>)
    requires s <= |v| && keyStart <= |v|
    ensures r.Some? ==> s < r.value <= |v| && IsBlockIndicator(v[s..LineValueEnd(v, s)])
                        && (r.value < |v| ==> IsNewline(v[r.value]))
  {
    if !IsBlockIndicator(v[s..LineValueEnd(v, s)]) then None
    else
      var header := LineBreak(v, s);
      if NextLine(v, header) == header then Some(|v|)
      else
        assert header > s;
        Some(BlockLines(v, NextLine(v, header), header, keyStart - LineBegin(v, keyStart)))
  }

  predicate EndsFlow(c: char) { c == ']' || c == '}' || c == ',' || IsNewline(c) }

  /** Where a flow value scanned from `i` stops, before trailing blanks are dropped. */
  function FlowStop(v: string, low: nat, i: nat, delimiters: seq<char>, quote: Option<char>): (r: nat)
    requires low <= i <= |v|
    ensures i <= r <= |v|
    ensures r < |v| ==> EndsFlow(v[r]) || (v[r] == '#' && r > low && IsBlank(v[r - 1]))
    decreases |v| - i
  {
    if i >= |v| then i
    else
      var c := v[i];
      if quote.Some? then
        if c == '\\' && quote.value == '"' then
          FlowStop(v, low, if i + 2 <= |v| then i + 2 else |v|, delimiters, quote)
        else if c == quote.value then
          if c == '\'' && i + 1 < |v| && v[i + 1] == '\'' then FlowStop(v, low, i + 2, delimiters, quote)
          else FlowStop(v, low, i + 1, delimiters, None)
        else FlowStop(v, low, i + 1, delimiters, quote)
      else if IsQuote(c) then FlowStop(v, low, i + 1, delimiters, Some(c))
      else if c == '[' || c == '{' then FlowStop(v, low, i + 1, delimiters + [c], None)
      else if c == ']' || c == '}' then
        if |delimiters| == 0 then i else FlowStop(v, low, i + 1, delimiters[..|delimiters| - 1], None)
      else if c == ',' && |delimiters| == 0 then i
      else if c == '#' && i > low && IsBlank(v[i - 1]) then
        if |delimiters| == 0 then i else FlowStop(v, low, CommentEnd(v, i), delimiters, None)
      else if IsNewline(c) && |delimiters| == 0 then i
      else FlowStop(v, low, i + 1, delimiters, None)
  }

  /** Past the comment that starts at `i`. */
  function CommentEnd(v: string, i: nat): (r: nat)
    requires i < |v| && v[i] == '#'
    ensures i < r <= |v|
  {
    assert LineBreak(v, i) > i || i == |v|;
    NextLine(v, LineBreak(v, i))
  }

  function FlowValueEnd(v: string, s: nat): (r: nat)
    requires s <= |v|
    ensures s <= r <= |v|
  {
    if StartsAt(v, s, REDACTED) then s + |REDACTED| else TrimBack(v, s, FlowStop(v, s, s, [], None))
  }

  predicate EndsInline(c: char) {
    IsQuote(c) || c == '&' || c == ',' || c == '#' || IsBlank(c) || c == '}' || c == ']' || IsNewline(c)
  }

  function InlineStop(v: string, i: nat): (r: nat)
    requires i <= |v|
    ensures i <= r <= |v|
    ensures r < |v| ==> EndsInline(v[r])
    ensures i < |v| && !EndsInline(v[i]) ==> r > i
    decreases |v| - i
  {
    if i < |v| && !EndsInline(v[i]) then InlineStop(v, i + 1) else i
  }

  function InlineValueEnd(v: string, s: nat): (r: nat)
    requires s <= |v|
    ensures s <= r <= |v|
  {
    if StartsAt(v, s, REDACTED) then s + |REDACTED| else InlineStop(v, s)
  }

  // ---- The scanner ----

  /** The key at index `i`, if one starts there. */
  function ReadKey(v: string, i: nat): (r: Option<Key>)
    requires i < |v|
    ensures r.Some? ==> i < r.value.after <= |v|
  {
    if IsQuote(v[i]) then
      if i + 1 < |v| && IsKeyStart(v[i + 1]) then
        var e := KeyEnd(v, i + 2);
        if e < |v| && v[e] == v[i] then Some(Key(v[i + 1..e], e + 1, true)) else None
      else None
    else if IsKeyStart(v[i]) && (i == 0 || !IsKeyCharacter(v[i - 1])) then
      var e := KeyEnd(v, i + 1);
      Some(Key(v[i..e], e, false))
    else None
  }

  /** Where an unquoted value ends: the rule depends on the delimiter, the key and the place in the line. */
  function PlainValueEnd(v: string, keyStart: nat, s: nat, name: string, delimiter: char, stage: Stage): (r: nat)
    requires keyStart <= s < |v|
    ensures s <= r <= |v|
  {
    if delimiter == ':' && !stage.Content? then
      match BlockEnd(v, s, keyStart)
      case Some(e) => e
      case None => LineValueEnd(v, s)
    else if delimiter == '=' && name == Upper(name) && !stage.Content? then LineValueEnd(v, s)
    else if delimiter == ':' then FlowValueEnd(v, s)
    else InlineValueEnd(v, s)
  }

  /** The move once a secret key, its delimiter and the start `s` of its value are known. */
  function ValueMove(v: string, keyStart: nat, s: nat, name: string, delimiter: char, stage: Stage): (m: Move)
    requires keyStart <= s < |v|
    ensures m.Copy? ==> s < m.next <= |v|
    ensures m.Replace? ==> m.valueStart == s < m.valueEnd <= |v|
  {
    if IsQuote(v[s]) then
      match QuotedEnd(v, s + 1, v[s])
      case None =>
        if v[s + 1..] == "" || v[s + 1..] == REDACTED then Copy(|v|, Content)
        else Replace(s, |v|, [v[s]] + REDACTED)
      case Some(e) =>
        if v[s + 1..e - 1] == "" || v[s + 1..e - 1] == REDACTED then Copy(e, Content)
        else Replace(s, e, [v[s]] + REDACTED + [v[s]])
    else
      var e := PlainValueEnd(v, keyStart, s, name, delimiter, stage);
      if v[s..e] == "" || v[s..e] == REDACTED then Copy(if e > s + 1 then e else s + 1, Content)
      else Replace(s, e, REDACTED)
  }

  /** The move once a secret key has been read. */
  function SecretMove(v: string, keyStart: nat, key: Key, stage: Stage): (m: Move)
    requires keyStart < key.after <= |v|
    ensures m.Copy? ==> key.after <= m.next <= |v|
    ensures m.Replace? ==> key.after < m.valueStart < m.valueEnd <= |v|
  {
    var d := BlankEnd(v, key.after);
    if d >= |v| || !(v[d] == ':' || v[d] == '=') then Copy(d, Content)
    else
      var s := BlankEnd(v, d + 1);
      if s >= |v| then Copy(|v|, Content) else ValueMove(v, keyStart, s, key.name, v[d], stage)
  }

  predicate IsExport(v: string, key: Key, stage: Stage)
    requires key.after <= |v|
  {
    !key.quoted && !stage.Content? && key.name == "export" && key.after < |v| && IsBlank(v[key.after])
  }

  function Decide(v: string, i: nat, stage: Stage): (m: Move)
    requires i < |v|
    ensures m.Copy? ==> i < m.next <= |v|
    ensures m.Replace? ==> i < m.valueStart < m.valueEnd <= |v|
  {
    if IsNewline(v[i]) then Copy(i + 1, LineStart)
    else if IsBlank(v[i]) then Copy(i + 1, stage)
    else if v[i] == '-' && stage.LineStart? then Copy(i + 1, Dash)
    else
      match ReadKey(v, i)
      case None => Copy(i + 1, Content)
      case Some(key) =>
        if IsExport(v, key, stage) then Copy(key.after, Export)
        else if !IsSecretKey(key.name) then Copy(key.after, Content)
        else SecretMove(v, i, key, stage)
  }

  /** The output for the text from index `i` on. */
  function Scan(v: string, i: nat, stage: Stage): string
    requires i <= |v|
    decreases |v| - i
  {
    if i == |v| then ""
    else
      match Decide(v, i, stage)
      case Copy(next, after) => v[i..next] + Scan(v, next, after)
      case Replace(s, e, text) => v[i..s] + text + Scan(v, e, Content)
  }

  function RedactAssignments(v: string): string {
    Scan(v, 0, LineStart)
  }
}
