/**
 How text columns compare: single characters in LIKE, whole values in = and IN. What the collation takes
 for equal, in case or accents say, is left open. And the escaping of user input for LIKE patterns.
 */
module Like {

  datatype Collation = Collation(same: (char, char) -> bool, equal: (string, string) -> bool) {
    /** value IN (list) */
    predicate Among(value: string, list: seq<string>) { exists i :: 0 <= i < |list| && equal(value, list[i]) }
  }

  /** The like predicate (ISO/IEC 9075-2, subclause 8.5) with backslash as escape character; a
      backslash at the end of the pattern stands for itself, as in MariaDB. */
  predicate Matches(c: Collation, pattern: string, text: string)
    decreases |pattern| + |text|
  {
    if pattern == "" then text == ""
    else if pattern[0] == '%' then
      Matches(c, pattern[1..], text) || (text != "" && Matches(c, pattern, text[1..]))
    else if pattern[0] == '_' then text != "" && Matches(c, pattern[1..], text[1..])
    else if pattern[0] == '\\' && |pattern| > 1 then
      text != "" && c.same(pattern[1], text[0]) && Matches(c, pattern[2..], text[1..])
    else text != "" && c.same(pattern[0], text[0]) && Matches(c, pattern[1..], text[1..])
  }

  /** One pass over s that puts a backslash before each metacharacter. */
  function EscapeLike(s: string): string {
    if s == "" then ""
    else (if s[0] in {'\\', '%', '_'} then ['\\', s[0]] else [s[0]]) + EscapeLike(s[1..])
  }

  /** The pattern the lists search with. */
  function SearchPattern(s: string): string { "%" + EscapeLike(s) + "%" }

  /** From i on the text reads as s. */
  predicate ContainsAt(c: Collation, text: string, s: string, i: nat) {
    i + |s| <= |text| && forall k :: 0 <= k < |s| ==> c.same(s[k], text[i+k])
  }

  predicate Contains(c: Collation, text: string, s: string) {
    exists i: nat :: i <= |text| && ContainsAt(c, text, s, i)
  }

  lemma {:induction false} PercentMatchesAll(c: Collation, text: string)
    ensures Matches(c, "%", text)
    decreases |text|
  {
    assert "%"[1..] == "";
    if text != "" { PercentMatchesAll(c, text[1..]); }
  }

  lemma ContainsOneMore(c: Collation, text: string, s: string)
    requires s != "" && text != ""
    ensures ContainsAt(c, text, s, 0) <==> c.same(s[0], text[0]) && ContainsAt(c, text[1..], s[1..], 0)
  {
    if c.same(s[0], text[0]) && ContainsAt(c, text[1..], s[1..], 0) {
      forall k | 0 <= k < |s| ensures c.same(s[k], text[k]) {
        if k > 0 { assert c.same(s[1..][k-1], text[1..][k-1]); }
      }
    }
  }

  /** An escaped string followed by % matches exactly the texts that start with the string. */
  lemma {:induction false} EscapedPrefix(c: Collation, s: string, text: string)
    ensures Matches(c, EscapeLike(s) + "%", text) <==> ContainsAt(c, text, s, 0)
    decreases |s|
  {
    var pattern := EscapeLike(s) + "%";
    if s == "" {
      assert pattern == "%";
      PercentMatchesAll(c, text);
    } else {
      var rest := EscapeLike(s[1..]) + "%";
      if s[0] in {'\\', '%', '_'} {
        assert pattern[0] == '\\' && pattern[1] == s[0] && pattern[2..] == rest;
      } else {
        assert pattern[0] == s[0] && pattern[1..] == rest;
      }
      if text != "" {
        EscapedPrefix(c, s[1..], text[1..]);
        ContainsOneMore(c, text, s);
      }
    }
  }

  lemma {:induction false} LeadingPercent(c: Collation, q: string, text: string)
    ensures Matches(c, "%" + q, text) <==> exists i: nat :: i <= |text| && Matches(c, q, text[i..])
    decreases |text|
  {
    assert ("%" + q)[1..] == q && text[0..] == text;
    if text != "" {
      LeadingPercent(c, q, text[1..]);
      if Matches(c, "%" + q, text[1..]) {
        var i: nat :| i <= |text[1..]| && Matches(c, q, text[1..][i..]);
        assert text[i+1..] == text[1..][i..];
      }
      if i: nat :| 0 < i <= |text| && Matches(c, q, text[i..]) {
        assert text[i..] == text[1..][i-1..];
      }
    }
  }

  /** Escaped input is matched literally, wherever backslashes, % and _ stand in it, under every
      collation. */
  lemma SearchIsSubstring(c: Collation, s: string, text: string)
    ensures Matches(c, SearchPattern(s), text) <==> Contains(c, text, s)
  {
    var q := EscapeLike(s) + "%";
    assert SearchPattern(s) == "%" + q;
    LeadingPercent(c, q, text);
    forall i: nat | i <= |text| ensures Matches(c, q, text[i..]) <==> ContainsAt(c, text, s, i) {
      EscapedPrefix(c, s, text[i..]);
      assert forall k :: 0 <= k < |s| && i + |s| <= |text| ==> text[i..][k] == text[i+k];
    }
  }
}
