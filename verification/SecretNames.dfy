/**
 Which keys are secret, said of their letters: one of fourteen words stands in the key, in
 upper or lower case, between underscores or the ends of the key.
*/
module SecretNames {
  import opened Redaction
  import opened RedactionSpans

  const SECRET_WORDS: seq<string> := [
    "PASSWORD", "PASSWD", "PWD", "SECRET", "TOKEN", "APIKEY", "CREDENTIAL", "CREDENTIALS",
    "API_KEY", "FERNET_KEY", "PRIVATE_KEY", "DATABASE_URL", "DB_URL", "CONNECTION_STRING"
  ]

  /** The same letter, in upper or lower case; `upper` is the one in upper case. */
  predicate SameLetter(c: char, upper: char) {
    c == upper || ('A' <= upper <= 'Z' && c as int == upper as int + 32)
  }

  /** The word stands at `i` in the key, between underscores or ends. */
  predicate StandsAt(key: string, i: nat, word: string) {
    && i + |word| <= |key| && (forall j :: 0 <= j < |word| ==> SameLetter(key[i + j], word[j]))
    && (i > 0 ==> key[i - 1] == '_') && (i + |word| < |key| ==> key[i + |word|] == '_')
  }

  ghost predicate HoldsSecretWord(key: string) {
    exists m: nat, i: nat :: m < |SECRET_WORDS| && StandsAt(key, i, SECRET_WORDS[m])
  }

  /** The words of a marker with underscores between them. */
  function Underscored(words: seq<string>): string {
    if words == [] then "" else if |words| == 1 then words[0] else words[0] + "_" + Underscored(words[1..])
  }

  /** The text stands at `i` exactly as it is. */
  predicate TextAt(s: string, i: nat, text: string) {
    && i + |text| <= |s| && s[i..i + |text|] == text
    && (i > 0 ==> s[i - 1] == '_') && (i + |text| < |s| ==> s[i + |text|] == '_')
  }

  function FirstUnderscore(s: string): (r: nat)
    ensures r <= |s| && IsWord(s[..r]) && (r < |s| ==> s[r] == '_')
  {
    if s == "" || s[0] == '_' then 0 else 1 + FirstUnderscore(s[1..])
  }

  /** The first segment goes up to the first underscore; the others are those of the rest. */
  lemma FirstSegment(s: string)
    ensures var r := FirstUnderscore(s);
            Segments(s) == if r == |s| then [s] else [s[..r]] + Segments(s[r + 1..])
  {
    hide *;
    var r := FirstUnderscore(s);
    SegmentsOfWord(s[..r]);
    if r == |s| {
      assert s[..r] == s;
    } else {
      SegmentsOfJoin(s[..r], s[r + 1..]);
      Glued(s, r);
    }
  }

  lemma Glued(s: string, r: nat)
    requires r < |s| && s[r] == '_'
    ensures s[..r] + "_" + s[r + 1..] == s
  {
  }

  /** A word in front, up to an underscore or the end, goes up to the first underscore. */
  lemma WordInFront(s: string, w: string)
    requires IsWord(w)
    ensures TextAt(s, 0, w) <==> s[..FirstUnderscore(s)] == w
  {
    var r := FirstUnderscore(s);
    if TextAt(s, 0, w) {
      assert forall k :: 0 <= k < |w| ==> s[k] == s[0..|w|][k];
      assert forall k :: 0 <= k < r ==> s[k] == s[..r][k];
    }
  }

  lemma TextBehindWord(s: string, w: string, rest: string)
    requires IsWord(w)
    ensures TextAt(s, 0, w + "_" + rest)
            <==> s[..FirstUnderscore(s)] == w && |w| < |s| && TextAt(s[|w| + 1..], 0, rest)
  {
    hide IsWord, FirstUnderscore;
    var r := FirstUnderscore(s);
    WordInFront(s, w);
    if |w| < |s| && s[|w|] == '_' {
      TextOfRest(s, |w| + 1, 0, rest);
    }
    TextOfBoth(s, w, rest);
  }

  lemma TextOfBoth(s: string, w: string, rest: string)
    ensures TextAt(s, 0, w + "_" + rest) <==> TextAt(s, 0, w) && |w| < |s| && TextAt(s, |w| + 1, rest)
  {
    var all := w + "_" + rest;
    if TextAt(s, 0, all) {
      assert s[0..|all|] == all;
      assert s[..|w|] == all[..|w|] && s[|w|] == all[|w|];
      assert s[|w| + 1..|all|] == all[|w| + 1..];
    }
    if TextAt(s, 0, w) && |w| < |s| && TextAt(s, |w| + 1, rest) {
      assert s[0..|all|] == s[..|w|] + [s[|w|]] + s[|w| + 1..][0..|rest|];
    }
  }

  lemma {:induction false} RunInFront(s: string, words: seq<string>)
    requires words != [] && forall w <- words :: IsWord(w)
    ensures RunAt(Segments(s), words, 0) <==> TextAt(s, 0, Underscored(words))
    decreases |words|
  {
    hide Segments, TextAt;
    var r := FirstUnderscore(s);
    FirstSegment(s);
    WordInFront(s, words[0]);
    if |words| > 1 {
      var rest := words[1..];
      TextBehindWord(s, words[0], Underscored(rest));
      if r < |s| {
        RunInFront(s[r + 1..], rest);
        RunBehind(s[..r], Segments(s[r + 1..]), words);
      }
    } else {
      assert words == [words[0]];
      assert Segments(s)[..1] == [Segments(s)[0]];
      if r == |s| { assert s[..r] == s; }
    }
  }

  lemma RunBehind(first: string, rest: seq<string>, words: seq<string>)
    requires words != []
    ensures RunAt([first] + rest, words, 0) <==> first == words[0] && RunAt(rest, words[1..], 0)
  {
    var all := [first] + rest;
    if RunAt(all, words, 0) {
      assert all[0..|words|][1..] == rest[..|words| - 1];
      assert all[0..|words|][0] == first;
    }
    if first == words[0] && RunAt(rest, words[1..], 0) {
      assert all[0..|words|] == [first] + rest[0..|words| - 1];
      assert words == [words[0]] + words[1..];
    }
  }

  lemma RunOfRest(first: string, rest: seq<string>, words: seq<string>, i: nat)
    ensures RunAt([first] + rest, words, i + 1) <==> RunAt(rest, words, i)
  {
    var all := [first] + rest;
    if i + |words| <= |rest| {
      assert all[i + 1..i + 1 + |words|] == rest[i..i + |words|];
    }
  }

  lemma RunLater(first: string, rest: seq<string>, words: seq<string>)
    requires words != []
    ensures HasRun([first] + rest, words) <==> RunAt([first] + rest, words, 0) || HasRun(rest, words)
  {
    hide RunAt;
    var all := [first] + rest;
    if i :| 0 <= i <= |rest| && RunAt(rest, words, i) {
      RunOfRest(first, rest, words, i);
    }
    if i :| 0 < i <= |all| && RunAt(all, words, i) {
      RunOfRest(first, rest, words, i - 1);
    }
  }

  ghost predicate HasText(s: string, text: string) { exists i: nat :: TextAt(s, i, text) }

  lemma TextOfRest(s: string, n: nat, i: nat, text: string)
    requires 0 < n <= |s| && s[n - 1] == '_'
    ensures TextAt(s[n..], i, text) <==> TextAt(s, n + i, text)
  {
    var rest := s[n..];
    assert n + i + |text| <= |s| ==> rest[i..i + |text|] == s[n + i..n + i + |text|];
    assert 0 < i <= |rest| ==> rest[i - 1] == s[n + i - 1];
  }

  lemma NothingBefore(s: string, i: nat, text: string)
    requires 0 < i && TextAt(s, i, text)
    ensures FirstUnderscore(s) < i && FirstUnderscore(s) < |s|
  {
    var r := FirstUnderscore(s);
    assert forall k :: 0 <= k < r ==> s[..r][k] == s[k];
  }

  /** A text stands in front, or behind the first underscore. */
  lemma TextLater(s: string, text: string)
    ensures var r := FirstUnderscore(s);
            HasText(s, text) <==> TextAt(s, 0, text) || (r < |s| && HasText(s[r + 1..], text))
  {
    hide TextAt, FirstUnderscore;
    var r := FirstUnderscore(s);
    if r < |s| && HasText(s[r + 1..], text) {
      var i: nat :| TextAt(s[r + 1..], i, text);
      TextOfRest(s, r + 1, i, text);
    }
    if i: nat :| TextAt(s, i, text) && i > 0 {
      NothingBefore(s, i, text);
      TextOfRest(s, r + 1, i - r - 1, text);
    }
  }

  lemma {:induction false} RunIsText(s: string, words: seq<string>)
    requires words != [] && forall w <- words :: IsWord(w)
    ensures HasRun(Segments(s), words) <==> HasText(s, Underscored(words))
    decreases |s|
  {
    hide Segments, TextAt, RunAt, HasText, HasRun;
    var r := FirstUnderscore(s);
    FirstSegment(s);
    RunInFront(s, words);
    TextLater(s, Underscored(words));
    if r < |s| {
      RunIsText(s[r + 1..], words);
      RunLater(s[..r], Segments(s[r + 1..]), words);
    } else {
      RunLater(s, [], words);
      assert [s] + [] == [s];
      NoRun(words);
    }
  }

  lemma NoRun(words: seq<string>)
    requires words != []
    ensures !HasRun([], words)
  {
  }

  predicate IsUpperText(t: string) { forall k :: 0 <= k < |t| ==> 'A' <= t[k] <= 'Z' || t[k] == '_' }

  lemma UpperMatches(c: char, m: char)
    requires 'A' <= m <= 'Z' || m == '_'
    ensures UpperChar(c) == m <==> SameLetter(c, m)
  {
  }

  lemma UpperText(key: string, i: nat, text: string)
    requires IsUpperText(text)
    ensures TextAt(Upper(key), i, text) <==> StandsAt(key, i, text)
  {
    hide UpperChar, SameLetter;
    var u := Upper(key);
    UnderscoreStays(key);
    if i + |text| <= |key| {
      forall j | 0 <= j < |text| ensures u[i..i + |text|][j] == text[j] <==> SameLetter(key[i + j], text[j]) {
        UpperMatches(key[i + j], text[j]);
      }
    }
  }

  lemma UnderscoreStays(key: string)
    ensures forall k :: 0 <= k < |key| ==> (Upper(key)[k] == '_' <==> key[k] == '_')
  {
    assert forall k :: 0 <= k < |key| ==> Upper(key)[k] == UpperChar(key[k]);
  }

  lemma MarkerWords(m: nat)
    requires m < |SECRET_SEGMENT_SEQUENCES|
    ensures |SECRET_SEGMENT_SEQUENCES| == |SECRET_WORDS|
    ensures SECRET_SEGMENT_SEQUENCES[m] != [] && forall w <- SECRET_SEGMENT_SEQUENCES[m] :: IsWord(w)
    ensures Underscored(SECRET_SEGMENT_SEQUENCES[m]) == SECRET_WORDS[m] && IsUpperText(SECRET_WORDS[m])
  {
    hide Underscored, IsWord, IsUpperText;
    var words := SECRET_SEGMENT_SEQUENCES[m];
    if m < 8 {
      assert words == [SECRET_WORDS[m]];
      OneWord(SECRET_WORDS[m]);
      EightWords(m);
    } else {
      SixPairs(m);
      TwoWords(words[0], words[1]);
    }
  }

  lemma OneWord(w: string)
    ensures Underscored([w]) == w
  {
  }

  lemma TwoWords(a: string, b: string)
    ensures Underscored([a, b]) == a + "_" + b
  {
    assert [a, b][1..] == [b];
  }

  lemma EightWords(m: nat)
    requires m < 8
    ensures IsWord(SECRET_WORDS[m]) && IsUpperText(SECRET_WORDS[m])
  {
  }

  lemma SixPairs(m: nat)
    requires 8 <= m < |SECRET_SEGMENT_SEQUENCES|
    ensures m < |SECRET_WORDS| && IsUpperText(SECRET_WORDS[m])
    ensures var words := SECRET_SEGMENT_SEQUENCES[m];
            |words| == 2 && IsWord(words[0]) && IsWord(words[1]) && SECRET_WORDS[m] == words[0] + "_" + words[1]
  {
  }

  /** A key is secret exactly when one of the words stands in it. */
  lemma SecretKeysHoldWords(key: string)
    ensures IsSecretKey(key) <==> HoldsSecretWord(key)
  {
    hide IsSecretKey, Segments, StandsAt, Upper, HasRun, HasText;
    SecretKeysAreMarked(key);
    MarkerWords(0);
    forall m: nat | m < |SECRET_WORDS|
      ensures HasRun(Segments(Upper(key)), SECRET_SEGMENT_SEQUENCES[m])
              <==> exists i: nat :: StandsAt(key, i, SECRET_WORDS[m])
    {
      MarkerWords(m);
      RunIsText(Upper(key), SECRET_SEGMENT_SEQUENCES[m]);
      WordStands(key, SECRET_WORDS[m]);
    }
  }

  lemma WordStands(key: string, word: string)
    requires IsUpperText(word)
    ensures HasText(Upper(key), word) <==> exists i: nat :: StandsAt(key, i, word)
  {
    hide StandsAt, TextAt, Upper;
    forall i: nat ensures TextAt(Upper(key), i, word) <==> StandsAt(key, i, word) {
      UpperText(key, i, word);
    }
  }
}
