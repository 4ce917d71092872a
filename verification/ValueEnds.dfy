/**
 Where values end, said of the text alone: characters, lines and columns. Each end of the
 scanner is characterised exactly, without the way it is found.
*/
module ValueEnds {
  import opened Options
  import opened Redaction

  predicate Blank(c: char) { c == ' ' || c == '\t' }

  predicate Break(c: char) { c == '\n' || c == '\r' }

  // ---- Quoted values ----

  /** What a quoted value is made of: a character of its own, or two that belong together. */
  datatype Unit = One(c: char) | Two(a: char, b: char)

  predicate UnitOf(u: Unit, quote: char) {
    match u
    case One(c) => c != quote && (quote == '"' ==> c != '\\')
    case Two(a, b) => if quote == '"' then a == '\\' else a == '\'' && b == '\''
  }

  function UnitText(u: Unit): string { match u case One(c) => [c] case Two(a, b) => [a, b] }

  function UnitsText(units: seq<Unit>): string {
    if units == [] then "" else UnitText(units[0]) + UnitsText(units[1..])
  }

  predicate UnitsOf(units: seq<Unit>, quote: char) { forall u <- units :: UnitOf(u, quote) }

  /** The closing quote of the value that starts at `s` is the last character before `e`. */
  ghost predicate Closes(v: string, s: nat, quote: char, e: nat) {
    && s < e <= |v| && v[e - 1] == quote && (quote == '\'' && e < |v| ==> v[e] != '\'')
    && exists units :: UnitsOf(units, quote) && UnitsText(units) == v[s..e - 1]
  }

  lemma UnitScanned(v: string, s: nat, quote: char, u: Unit)
    requires IsQuote(quote) && UnitOf(u, quote) && StartsAt(v, s, UnitText(u))
    ensures QuotedEnd(v, s, quote) == QuotedEnd(v, s + |UnitText(u)|, quote)
  {
    var text := UnitText(u);
    assert v[s] == v[s..s + |text|][0] && (|text| == 2 ==> v[s + 1] == v[s..s + |text|][1]);
  }

  lemma SplitAt(v: string, s: nat, first: string, rest: string)
    requires StartsAt(v, s, first + rest)
    ensures StartsAt(v, s, first) && StartsAt(v, s + |first|, rest)
  {
    var whole := v[s..s + |first + rest|];
    assert whole[..|first|] == first && whole[|first|..] == rest;
    assert v[s..s + |first|] == whole[..|first|];
    assert v[s + |first|..s + |first| + |rest|] == whole[|first|..];
  }

  lemma {:induction false} UnitsScanned(v: string, s: nat, quote: char, units: seq<Unit>)
    requires IsQuote(quote) && UnitsOf(units, quote) && StartsAt(v, s, UnitsText(units))
    ensures QuotedEnd(v, s, quote) == QuotedEnd(v, s + |UnitsText(units)|, quote)
    decreases |units|
  {
    hide QuotedEnd, UnitOf, UnitText;
    if units != [] {
      var first, rest := UnitText(units[0]), UnitsText(units[1..]);
      assert units[0] in units && forall u <- units[1..] :: u in units;
      SplitAt(v, s, first, rest);
      UnitScanned(v, s, quote, units[0]);
      UnitsScanned(v, s + |first|, quote, units[1..]);
    }
  }

  lemma UnitsLonger(v: string, s: nat, e: nat, quote: char, u: Unit, units: seq<Unit>)
    requires s + |UnitText(u)| <= e <= |v| && UnitOf(u, quote) && UnitsOf(units, quote)
    requires v[s..s + |UnitText(u)|] == UnitText(u) && UnitsText(units) == v[s + |UnitText(u)|..e]
    ensures UnitsOf([u] + units, quote) && UnitsText([u] + units) == v[s..e]
  {
    assert ([u] + units)[1..] == units;
    assert v[s..e] == v[s..s + |UnitText(u)|] + v[s + |UnitText(u)|..e];
  }

  lemma {:induction false} UnitsRead(v: string, s: nat, quote: char) returns (units: seq<Unit>)
    requires s <= |v| && IsQuote(quote) && QuotedEnd(v, s, quote).Some?
    ensures UnitsOf(units, quote) && UnitsText(units) == v[s..QuotedEnd(v, s, quote).value - 1]
    decreases |v| - s
  {
    hide UnitsText, UnitsOf, UnitOf, QuotedEnd;
    QuotedStep(v, s, quote);
    UnitKinds(v, s, quote);
    var e := QuotedEnd(v, s, quote).value;
    if (v[s] == '\\' && quote == '"') || (v[s] == quote && quote == '\'' && s + 1 < |v| && v[s + 1] == '\'') {
      var rest := UnitsRead(v, s + 2, quote);
      UnitsLonger(v, s, e - 1, quote, Two(v[s], v[s + 1]), rest);
      units := [Two(v[s], v[s + 1])] + rest;
    } else if v[s] == quote {
      units := [];
      NoUnits(quote);
    } else {
      var rest := UnitsRead(v, s + 1, quote);
      UnitsLonger(v, s, e - 1, quote, One(v[s]), rest);
      units := [One(v[s])] + rest;
    }
  }

  lemma QuotedStep(v: string, s: nat, quote: char)
    requires s <= |v| && IsQuote(quote) && QuotedEnd(v, s, quote).Some?
    ensures s < |v|
    ensures if (v[s] == '\\' && quote == '"')
                  || (v[s] == quote && quote == '\'' && s + 1 < |v| && v[s + 1] == '\'')
               then s + 2 <= |v| && QuotedEnd(v, s, quote) == QuotedEnd(v, s + 2, quote)
               else QuotedEnd(v, s, quote) == if v[s] == quote then Some(s + 1) else QuotedEnd(v, s + 1, quote)
  {
  }

  lemma UnitKinds(v: string, s: nat, quote: char)
    requires s < |v| && IsQuote(quote)
    ensures v[s] != quote && !(quote == '"' && v[s] == '\\') ==> UnitOf(One(v[s]), quote)
    ensures s + 1 < |v| && quote == '"' && v[s] == '\\' ==> UnitOf(Two(v[s], v[s + 1]), quote)
    ensures s + 1 < |v| && quote == '\'' && v[s] == '\'' && v[s + 1] == '\'' ==> UnitOf(Two(v[s], v[s + 1]), quote)
  {
  }

  lemma NoUnits(quote: char)
    ensures UnitsOf([], quote) && UnitsText([]) == ""
  {
  }

  /** A quoted value ends behind the quote that closes it, and is open exactly when none does. */
  lemma QuotedEndExactly(v: string, s: nat, quote: char, e: nat)
    requires s <= |v| && IsQuote(quote)
    ensures QuotedEnd(v, s, quote) == Some(e) <==> Closes(v, s, quote, e)
  {
    hide UnitsOf, UnitsText;
    if QuotedEnd(v, s, quote) == Some(e) {
      var units := UnitsRead(v, s, quote);
      assert UnitsOf(units, quote) && UnitsText(units) == v[s..e - 1];
    }
    if Closes(v, s, quote, e) {
      var units :| UnitsOf(units, quote) && UnitsText(units) == v[s..e - 1];
      UnitsScanned(v, s, quote, units);
    }
  }

  // ---- Values that end with the line ----

  /** The first break at or behind `s`, or the end of the text. */
  predicate LineEndsAt(v: string, s: nat, l: nat) {
    s <= l <= |v| && (forall k :: s <= k < l ==> !Break(v[k])) && (l < |v| ==> Break(v[l]))
  }

  /** A number sign behind a blank starts a comment; not at the start of the value. */
  predicate CommentAt(v: string, s: nat, k: nat) { s < k < |v| && v[k] == '#' && Blank(v[k - 1]) }

  /** The value ends before the blanks that end the line or go before its first comment. */
  predicate LineValueEndsAt(v: string, s: nat, l: nat, c: nat, e: nat) {
    && LineEndsAt(v, s, l)
    && s <= c <= l && (c < l ==> CommentAt(v, s, c)) && (forall k :: s <= k < c ==> !CommentAt(v, s, k))
    && s <= e <= c && (forall k :: e <= k < c ==> Blank(v[k])) && (s < e ==> !Blank(v[e - 1]))
  }

  lemma LineEndIs(v: string, s: nat, l: nat)
    requires s <= |v| && LineEndsAt(v, s, l)
    ensures LineBreak(v, s) == l
  {
    assert l < |v| ==> IsNewline(v[l]);
    assert LineBreak(v, s) < |v| ==> Break(v[LineBreak(v, s)]);
  }

  lemma CommentIs(v: string, s: nat, l: nat, c: nat)
    requires s <= c <= l <= |v| && (c < l ==> CommentAt(v, s, c)) && forall k :: s <= k < c ==> !CommentAt(v, s, k)
    ensures CommentStart(v, s, s, l) == c
  {
    var r := CommentStart(v, s, s, l);
    assert r < l ==> CommentAt(v, s, r);
  }

  lemma TrimIs(v: string, s: nat, c: nat, e: nat)
    requires s <= e <= c <= |v| && (forall k :: e <= k < c ==> Blank(v[k])) && (s < e ==> !Blank(v[e - 1]))
    ensures TrimBack(v, s, c) == e
  {
    var r := TrimBack(v, s, c);
  }

  /** The end of a line value is the one index of which that is true. */
  lemma LineValueEndExactly(v: string, s: nat, e: nat)
    requires s <= |v|
    ensures LineValueEnd(v, s) == e <==> exists l: nat, c: nat :: LineValueEndsAt(v, s, l, c, e)
  {
    if LineValueEnd(v, s) == e {
      var l := LineBreak(v, s);
      assert LineValueEndsAt(v, s, l, CommentStart(v, s, s, l), e);
    }
    if l: nat, c: nat :| LineValueEndsAt(v, s, l, c, e) {
      LineEndIs(v, s, l);
      CommentIs(v, s, l, c);
      TrimIs(v, s, c, e);
    }
  }

  // ---- Values that end with a character ----

  predicate InlineStopper(c: char) {
    c in ['"', '\'', '&', ',', '#', ' ', '\t', '}', ']', '\r', '\n']
  }

  /** An inline value goes to the first character that cannot be in it; a redacted one to its own end. */
  lemma InlineValueEndExactly(v: string, s: nat, e: nat)
    requires s <= |v|
    ensures InlineValueEnd(v, s) == e
            <==> if StartsAt(v, s, "[REDACTED]") then e == s + 10
                 else s <= e <= |v| && (forall k :: s <= k < e ==> !InlineStopper(v[k])) && (e < |v| ==> InlineStopper(v[e]))
  {
    InlineStopRange(v, s);
    assert forall c :: EndsInline(c) <==> InlineStopper(c);
    var r := InlineStop(v, s);
    if s <= e <= |v| && (forall k :: s <= k < e ==> !InlineStopper(v[k])) && (e < |v| ==> InlineStopper(v[e])) {
      assert e < |v| ==> EndsInline(v[e]);
      assert r < |v| ==> InlineStopper(v[r]);
    }
  }

  lemma {:induction false} InlineStopRange(v: string, i: nat)
    requires i <= |v|
    ensures forall k :: i <= k < InlineStop(v, i) ==> !EndsInline(v[k])
    decreases |v| - i
  {
    if i < |v| && !EndsInline(v[i]) {
      InlineStopRange(v, i + 1);
    }
  }
}
