/**
 The environment file of a generation: one `NAME='value'` line an entry, with backslashes and
 quotes escaped. Reading by the same rule gives the entries back.
*/
module EnvFile {
  import opened Options

  datatype Entry = Entry(name: string, value: string)

  /** Python's `replace` of one character by a text. */
  function ReplaceAll(s: string, c: char, text: string): string {
    if s == "" then "" else (if s[0] == c then text else [s[0]]) + ReplaceAll(s[1..], c, text)
  }

  function Escape(value: string): string { ReplaceAll(ReplaceAll(value, '\\', "\\\\"), '\'', "\\'") }

  function Line(e: Entry): string { e.name + "='" + Escape(e.value) + "'\n" }

  function Serialize(entries: seq<Entry>): string {
    if entries == [] then "" else Line(entries[0]) + Serialize(entries[1..])
  }

  /** Names are constants of upper-case letters and underscores; all that matters is the sign they lack. */
  predicate NameOk(name: string) { '=' !in name }

  // ---- Reading ----

  datatype Read = Read(text: string, rest: string)

  /** The text up to `=`, and what follows it. */
  function ReadName(s: string): (r: Option<Read>)
    ensures r.Some? ==> |r.value.rest| < |s|
  {
    if s == "" then None
    else if s[0] == '=' then Some(Read("", s[1..]))
    else
      match ReadName(s[1..])
      case None => None
      case Some(r) => Some(Read([s[0]] + r.text, r.rest))
  }

  /** The value up to the closing quote, a backslash taking the next character literally. */
  function ReadQuoted(s: string): (r: Option<Read>)
    ensures r.Some? ==> |r.value.rest| < |s|
  {
    if s == "" then None
    else if s[0] == '\'' then Some(Read("", s[1..]))
    else if s[0] == '\\' then
      if |s| == 1 then None
      else
        match ReadQuoted(s[2..])
        case None => None
        case Some(r) => Some(Read([s[1]] + r.text, r.rest))
    else
      match ReadQuoted(s[1..])
      case None => None
      case Some(r) => Some(Read([s[0]] + r.text, r.rest))
  }

  function Parse(s: string): Option<seq<Entry>>
    decreases |s|
  {
    if s == "" then Some([])
    else
      match ReadName(s)
      case None => None
      case Some(name) =>
        if name.rest == "" || name.rest[0] != '\'' then None
        else
          match ReadQuoted(name.rest[1..])
          case None => None
          case Some(value) =>
            if value.rest == "" || value.rest[0] != '\n' then None
            else
              match Parse(value.rest[1..])
              case None => None
              case Some(entries) => Some([Entry(name.text, value.text)] + entries)
  }

  // ---- Escaping character by character ----

  function EscapeChar(c: char): string {
    if c == '\\' then "\\\\" else if c == '\'' then "\\'" else [c]
  }

  lemma {:induction false} ReplaceJoined(a: string, b: string, c: char, text: string)
    ensures ReplaceAll(a + b, c, text) == ReplaceAll(a, c, text) + ReplaceAll(b, c, text)
  {
    if a == "" {
      assert a + b == b;
    } else {
      ReplaceJoined(a[1..], b, c, text);
      assert (a + b)[0] == a[0] && (a + b)[1..] == a[1..] + b;
      Associates(if a[0] == c then text else [a[0]], ReplaceAll(a[1..], c, text), ReplaceAll(b, c, text));
    }
  }

  lemma Associates(x: string, y: string, z: string)
    ensures x + (y + z) == x + y + z
  {
  }

  /** The two replacements work on each character alone: the quotes' backslashes are not doubled. */
  lemma EscapeByCharacter(c: char, value: string)
    ensures Escape([c] + value) == EscapeChar(c) + Escape(value)
  {
    var first := if c == '\\' then "\\\\" else [c];
    var rest := ReplaceAll(value, '\\', "\\\\");
    assert ([c] + value)[1..] == value;
    assert ReplaceAll([c] + value, '\\', "\\\\") == first + rest;
    ReplaceJoined(first, rest, '\'', "\\'");
    if c == '\\' {
      ReplaceJoined("\\", "\\", '\'', "\\'");
      assert "\\" + "\\" == "\\\\";
    }
  }

  // ---- Round trip ----

  lemma {:induction false} NameReadBack(name: string, rest: string)
    requires NameOk(name)
    ensures ReadName(name + "=" + rest) == Some(Read(name, rest))
  {
    var s := name + "=" + rest;
    if name == "" {
      assert s[0] == '=' && s[1..] == rest;
      assert ReadName(s) == Some(Read("", rest));
    } else {
      assert name[0] in name && [name[0]] + name[1..] == name;
      NameReadBack(name[1..], rest);
      assert s[0] == name[0] && s[1..] == name[1..] + "=" + rest;
    }
  }

  /** Reading takes an escaped character for the character, and goes on behind it. */
  lemma CharacterReadBack(c: char, rest: string)
    ensures ReadQuoted(EscapeChar(c) + rest)
         == match ReadQuoted(rest) case None => None case Some(r) => Some(Read([c] + r.text, r.rest))
  {
    var s := EscapeChar(c) + rest;
    assert s[|EscapeChar(c)|..] == rest;
    assert s[0] == EscapeChar(c)[0] && (|EscapeChar(c)| == 2 ==> s[1] == c);
  }

  lemma {:induction false} ValueReadBack(value: string, rest: string)
    ensures ReadQuoted(Escape(value) + "'" + rest) == Some(Read(value, rest))
  {
    if value == "" {
      var s := Escape(value) + "'" + rest;
      assert s[0] == '\'' && s[1..] == rest;
    } else {
      var c, tail := value[0], Escape(value[1..]);
      ValueReadBack(value[1..], rest);
      assert value == [c] + value[1..];
      EscapeByCharacter(c, value[1..]);
      hide Escape, EscapeChar, ReadQuoted;
      CharacterReadBack(c, tail + "'" + rest);
      Associates(EscapeChar(c), tail, "'" + rest);
      Associates(EscapeChar(c) + tail, "'", rest);
      Associates(tail, "'", rest);
    }
  }

  /** Reading a serialized file gives every name and every value back. */
  lemma {:induction false} ParseSerialize(entries: seq<Entry>)
    requires forall e <- entries :: NameOk(e.name)
    ensures Parse(Serialize(entries)) == Some(entries)
  {
    if entries != [] {
      var e, rest := entries[0], Serialize(entries[1..]);
      ParseSerialize(entries[1..]);
      LineReadBack(e, rest);
      assert entries == [e] + entries[1..];
    }
  }

  lemma LineReadBack(e: Entry, rest: string)
    requires NameOk(e.name)
    ensures Parse(Line(e) + rest)
         == match Parse(rest) case None => None case Some(entries) => Some([e] + entries)
  {
    hide Escape, ReadName, ReadQuoted;
    var tail := Escape(e.value) + "'" + ("\n" + rest);
    var s := Line(e) + rest;
    assert s == e.name + "=" + ("'" + tail);
    NameReadBack(e.name, "'" + tail);
    assert ("'" + tail)[1..] == tail;
    ValueReadBack(e.value, "\n" + rest);
    assert ("\n" + rest)[1..] == rest;
  }

  /** Different entries never give the same file. */
  lemma SerializeIsInjective(a: seq<Entry>, b: seq<Entry>)
    requires (forall e <- a :: NameOk(e.name)) && (forall e <- b :: NameOk(e.name))
    requires Serialize(a) == Serialize(b)
    ensures a == b
  {
    ParseSerialize(a);
    ParseSerialize(b);
  }
}
