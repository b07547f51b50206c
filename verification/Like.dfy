/** Escaping for LIKE patterns, and what an escaped pattern matches. */
module Likes {
  import opened Texts

  const ESCAPE: char := '\\'

  /** Three replacements, one after the other: the escape character itself first. */
  function EscapeLike(value: string): string {
    ReplaceAll(ReplaceAll(ReplaceAll(value, '\\', "\\\\"), '%', "\\%"), '_', "\\_")
  }

  function EscapeChar(c: char): string {
    if c == '\\' || c == '%' || c == '_' then [ESCAPE, c] else [c]
  }

  function EscapeEach(value: string): string {
    if value == [] then [] else EscapeChar(value[0]) + EscapeEach(value[1..])
  }

  lemma ReplaceNeither(c: char, d: char, from: char, into: string)
    requires c != from && d != from
    ensures ReplaceAll([c, d], from, into) == [c, d]
  {
    assert [c, d] == [c] + [d];
    ReplaceConcat([c], [d], from, into);
    ReplaceOne(c, from, into);
    ReplaceOne(d, from, into);
  }

  lemma EscapeLikeOne(c: char)
    ensures EscapeLike([c]) == EscapeChar(c)
  {
    hide ReplaceAll;
    ReplaceOne(c, '\\', "\\\\");
    if c == '\\' {
      ReplaceNeither('\\', '\\', '%', "\\%");
      ReplaceNeither('\\', '\\', '_', "\\_");
    } else {
      ReplaceOne(c, '%', "\\%");
      ReplaceOne(c, '_', "\\_");
      ReplaceNeither('\\', '%', '_', "\\_");
    }
  }

  /** The three successive replacements escape each character on its own: none undoes or repeats another. */
  lemma {:induction false} EscapePerCharacter(value: string)
    ensures EscapeLike(value) == EscapeEach(value)
    decreases |value|
  {
    if value != [] {
      EscapePerCharacter(value[1..]);
      EscapeLikeOne(value[0]);
      EscapeFirst(value);
    }
  }

  lemma EscapeFirst(value: string)
    requires value != []
    ensures EscapeLike(value) == EscapeLike([value[0]]) + EscapeLike(value[1..])
  {
    hide ReplaceAll;
    var c, rest := [value[0]], value[1..];
    assert value == c + rest;
    ReplaceConcat(c, rest, '\\', "\\\\");
    var c1, r1 := ReplaceAll(c, '\\', "\\\\"), ReplaceAll(rest, '\\', "\\\\");
    ReplaceConcat(c1, r1, '%', "\\%");
    ReplaceConcat(ReplaceAll(c1, '%', "\\%"), ReplaceAll(r1, '%', "\\%"), '_', "\\_");
  }

  // ---------------------------------------------------------------- matching

  /** ASCII case folding, which is all that SQLite's LIKE folds. */
  function Fold(c: char): char {
    if 'A' <= c <= 'Z' then c - 'A' + 'a' else c
  }

  /** The same character, or the same letter of the English alphabet in the other case. */
  predicate SameLetter(c: char, d: char) {
    || c == d
    || ('A' <= c <= 'Z' && d as int == c as int + 32)
    || ('A' <= d <= 'Z' && c as int == d as int + 32)
  }

  /** Folding identifies exactly the characters that differ in ASCII case alone. */
  lemma FoldExactly(c: char, d: char)
    ensures Fold(c) == Fold(d) <==> SameLetter(c, d)
  {
  }

  /** SQLite's LIKE with an escape character. */
  predicate Matches(pattern: string, text: string)
    decreases |pattern| + |text|
  {
    if pattern == [] then text == []
    else if pattern[0] == ESCAPE then
      |pattern| > 1 && text != [] && Fold(pattern[1]) == Fold(text[0]) && Matches(pattern[2..], text[1..])
    else if pattern[0] == '%' then
      Matches(pattern[1..], text) || (text != [] && Matches(pattern, text[1..]))
    else
      text != [] && (pattern[0] == '_' || Fold(pattern[0]) == Fold(text[0])) && Matches(pattern[1..], text[1..])
  }

  predicate StartsFolded(text: string, value: string) {
    |value| <= |text| && forall i :: 0 <= i < |value| ==> Fold(value[i]) == Fold(text[i])
  }

  predicate ContainsFolded(text: string, value: string) {
    exists i :: 0 <= i <= |text| && StartsFolded(text[i..], value)
  }

  lemma {:induction false} AnythingMatches(text: string)
    ensures Matches("%", text)
    decreases |text|
  {
    if text != [] {
      AnythingMatches(text[1..]);
    }
  }

  lemma {:induction false} PrefixMatches(value: string, text: string)
    ensures Matches(EscapeEach(value) + "%", text) <==> StartsFolded(text, value)
    decreases |value|
  {
    if value == [] {
      assert EscapeEach(value) + "%" == "%";
      AnythingMatches(text);
    } else {
      var c, rest := value[0], EscapeEach(value[1..]) + "%";
      assert EscapeEach(value) + "%" == EscapeChar(c) + rest;
      if text != [] {
        PrefixMatches(value[1..], text[1..]);
        assert (EscapeChar(c) + rest)[|EscapeChar(c)|..] == rest;
        assert StartsFolded(text, value) <==> Fold(c) == Fold(text[0]) && StartsFolded(text[1..], value[1..]) by {
          StartsStep(text, value);
        }
      }
    }
  }

  lemma StartsStep(text: string, value: string)
    requires text != [] && value != []
    ensures StartsFolded(text, value) <==> Fold(value[0]) == Fold(text[0]) && StartsFolded(text[1..], value[1..])
  {
  }

  lemma {:induction false} AnywhereMatches(pattern: string, text: string)
    ensures Matches("%" + pattern, text) <==> exists i :: 0 <= i <= |text| && Matches(pattern, text[i..])
    decreases |text|
  {
    assert ("%" + pattern)[1..] == pattern;
    assert text[0..] == text;
    if text != [] {
      AnywhereMatches(pattern, text[1..]);
      if i :| 0 <= i <= |text[1..]| && Matches(pattern, text[1..][i..]) {
        assert text[1..][i..] == text[i + 1..];
      }
      if i :| 0 <= i <= |text| && Matches(pattern, text[i..]) {
        assert i > 0 ==> text[1..][i - 1..] == text[i..];
      }
    }
  }

  /** The pattern built for a containment test matches exactly the texts that contain the value up to ASCII case. */
  lemma ContainsMeaning(value: string, text: string)
    ensures Matches("%" + EscapeLike(value) + "%", text) <==> ContainsFolded(text, value)
  {
    hide Matches, EscapeLike, EscapeEach, StartsFolded;
    EscapePerCharacter(value);
    var pattern := EscapeEach(value) + "%";
    assert "%" + EscapeLike(value) + "%" == "%" + pattern;
    AnywhereMatches(pattern, text);
    forall i | 0 <= i <= |text| ensures Matches(pattern, text[i..]) <==> StartsFolded(text[i..], value) {
      PrefixMatches(value, text[i..]);
    }
  }
}
