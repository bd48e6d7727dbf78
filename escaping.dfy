/** The HTML escaper `escape` of src/render.ts: each of & < > " ' becomes its named entity. */
module Escaping {

  /** The character class `[&<>"']` of the escape regex. */
  predicate IsSpecial(c: char) {
    c == '&' || c == '<' || c == '>' || c == '"' || c == '\''
  }

  /** The entity the escape table maps a special character to. */
  function Entity(c: char): (r: string)
    requires IsSpecial(c)
    ensures |r| > 1 && r[0] == '&' && r[|r| - 1] == ';'
  {
    if c == '&' then "&amp;"
    else if c == '<' then "&lt;"
    else if c == '>' then "&gt;"
    else if c == '"' then "&quot;"
    else "&apos;"
  }

  /** The regex `test`: does `s` hold a special character at all? */
  predicate HasSpecial(s: string) {
    exists i :: 0 <= i < |s| && IsSpecial(s[i])
  }

  /** The global `replace` with the table lookup as callback. */
  function ReplaceAll(s: string): string {
    if s == [] then []
    else (if IsSpecial(s[0]) then Entity(s[0]) else [s[0]]) + ReplaceAll(s[1..])
  }

  /**
   * `escape` as written: replace only when the test finds a special
   * character, and otherwise hand back the input itself.
   */
  function Escape(s: string): string {
    if HasSpecial(s) then ReplaceAll(s) else s
  }

  lemma {:induction false} ReplaceAllIdentity(s: string)
    requires !HasSpecial(s)
    ensures ReplaceAll(s) == s
  {
    if s != [] {
      assert !HasSpecial(s[1..]) by {
        forall i | 0 <= i < |s[1..]| ensures !IsSpecial(s[1..][i]) {
          assert s[1..][i] == s[i + 1];
        }
      }
      ReplaceAllIdentity(s[1..]);
    }
  }

  /** The test in front of the replacement only saves work: escaping is the per-character map. */
  lemma EscapeIsReplaceAll(s: string)
    ensures Escape(s) == ReplaceAll(s)
  {
    if !HasSpecial(s) {
      ReplaceAllIdentity(s);
    }
  }

  lemma {:induction false} ReplaceAllAppend(a: string, b: string)
    ensures ReplaceAll(a + b) == ReplaceAll(a) + ReplaceAll(b)
  {
    if a != [] {
      assert (a + b)[0] == a[0];
      assert (a + b)[1..] == a[1..] + b;
      ReplaceAllAppend(a[1..], b);
      var head := if IsSpecial(a[0]) then Entity(a[0]) else [a[0]];
      calc {
        ReplaceAll(a + b);
        head + ReplaceAll(a[1..] + b);
        head + (ReplaceAll(a[1..]) + ReplaceAll(b));
        (head + ReplaceAll(a[1..])) + ReplaceAll(b);
        ReplaceAll(a) + ReplaceAll(b);
      }
    } else {
      assert a + b == b;
    }
  }

  /** Escaping works character by character, so it distributes over concatenation. */
  lemma EscapeAppend(a: string, b: string)
    ensures Escape(a + b) == Escape(a) + Escape(b)
  {
    EscapeIsReplaceAll(a + b);
    EscapeIsReplaceAll(a);
    EscapeIsReplaceAll(b);
    ReplaceAllAppend(a, b);
  }

  /** A single character becomes its entity when it is special and stays as it is otherwise. */
  lemma EscapeChar(c: char)
    ensures Escape([c]) == if IsSpecial(c) then Entity(c) else [c]
  {
    EscapeIsReplaceAll([c]);
    assert [c][1..] == [];
  }

  /** What escaping emits holds none of the characters that could open or close a tag or an attribute. */
  lemma {:induction false} ReplaceAllSafe(s: string)
    ensures forall i :: 0 <= i < |ReplaceAll(s)| ==> ReplaceAll(s)[i] !in "<>\"'"
  {
    if s != [] {
      ReplaceAllSafe(s[1..]);
      var head := if IsSpecial(s[0]) then Entity(s[0]) else [s[0]];
      assert ReplaceAll(s) == head + ReplaceAll(s[1..]);
      forall i | 0 <= i < |ReplaceAll(s)| ensures ReplaceAll(s)[i] !in "<>\"'" {
        if i >= |head| {
          assert ReplaceAll(s)[i] == ReplaceAll(s[1..])[i - |head|];
        }
      }
    }
  }

  lemma EscapeSafe(s: string)
    ensures forall i :: 0 <= i < |Escape(s)| ==> Escape(s)[i] !in "<>\"'"
    ensures '<' !in Escape(s)
  {
    EscapeIsReplaceAll(s);
    ReplaceAllSafe(s);
  }

  /** Decoding of the five entities, used to state that escaping loses nothing. */
  function Unescape(s: string): string
    decreases |s|
  {
    if |s| >= 5 && s[..5] == "&amp;" then "&" + Unescape(s[5..])
    else if |s| >= 4 && s[..4] == "&lt;" then "<" + Unescape(s[4..])
    else if |s| >= 4 && s[..4] == "&gt;" then ">" + Unescape(s[4..])
    else if |s| >= 6 && s[..6] == "&quot;" then "\"" + Unescape(s[6..])
    else if |s| >= 6 && s[..6] == "&apos;" then "'" + Unescape(s[6..])
    else if s == [] then []
    else [s[0]] + Unescape(s[1..])
  }

  /** An entity followed by anything decodes to its character, then the rest decoded. */
  lemma UnescapeEntity(c: char, rest: string)
    requires IsSpecial(c)
    ensures Unescape(Entity(c) + rest) == [c] + Unescape(rest)
  {
    var e := Entity(c);
    var t := e + rest;
    assert t[..|e|] == e;
    assert t[|e|..] == rest;
    if c == '&' {
    } else if c == '<' {
      assert t[1] == 'l';
    } else if c == '>' {
      assert t[1] == 'g';
    } else if c == '"' {
      assert t[1] == 'q';
    } else {
      assert t[1] == 'a' && t[4] == 's';
    }
  }

  /** A character that is not '&' decodes to itself. */
  lemma UnescapePlain(c: char, rest: string)
    requires c != '&'
    ensures Unescape([c] + rest) == [c] + Unescape(rest)
  {
    var t := [c] + rest;
    assert t[0] == c;
    assert t[1..] == rest;
  }

  lemma {:induction false} UnescapeReplaceAll(s: string)
    ensures Unescape(ReplaceAll(s)) == s
  {
    if s != [] {
      UnescapeReplaceAll(s[1..]);
      if IsSpecial(s[0]) {
        UnescapeEntity(s[0], ReplaceAll(s[1..]));
      } else {
        UnescapePlain(s[0], ReplaceAll(s[1..]));
      }
      assert [s[0]] + s[1..] == s;
    }
  }

  /** Escaping is lossless: decoding the five entities gives the input back. */
  lemma UnescapeEscape(s: string)
    ensures Unescape(Escape(s)) == s
  {
    EscapeIsReplaceAll(s);
    UnescapeReplaceAll(s);
  }
}
