/**
 * The placeholder `<server-render data-id='ID'></server-render>` that
 * src/render.ts emits for a pending chunk, and its recognition by
 * `/<server-render data-id='([0-9]+)'><\/server-render>/i`.
 */
module Markers {
  import opened Values

  const Open: string := "<server-render data-id='"
  const Close: string := "'></server-render>"

  predicate IsDigit(c: char) {
    '0' <= c <= '9'
  }

  function DigitChar(d: nat): (c: char)
    requires d < 10
    ensures IsDigit(c) && c as int - '0' as int == d
  {
    ('0' as int + d) as char
  }

  /** The decimal text of a number, as a template literal writes `${id}`. */
  function Digits(n: nat): (r: string)
    ensures |r| > 0 && forall i :: 0 <= i < |r| ==> IsDigit(r[i])
    decreases n
  {
    if n < 10 then [DigitChar(n)] else Digits(n / 10) + [DigitChar(n % 10)]
  }

  /** `Number.parseInt` of a run of decimal digits. */
  function DigitsValue(s: string): nat
    requires forall i :: 0 <= i < |s| ==> IsDigit(s[i])
    decreases |s|
  {
    if s == [] then 0
    else
      assert IsDigit(s[|s| - 1]);
      DigitsValue(s[..|s| - 1]) * 10 + (s[|s| - 1] as int - '0' as int)
  }

  lemma {:induction false} DigitsRoundTrip(n: nat)
    ensures DigitsValue(Digits(n)) == n
    decreases n
  {
    if n >= 10 {
      var d := Digits(n);
      assert d[..|d| - 1] == Digits(n / 10);
      DigitsRoundTrip(n / 10);
    }
  }

  /** The marker a pending chunk with this id is emitted as. */
  function Placeholder(id: nat): string {
    Open + Digits(id) + Close
  }

  /** Case folding of a regex with the `i` flag and without `u`: only ASCII letters fold. */
  function Lower(c: char): char {
    if 'A' <= c <= 'Z' then (c as int + 32) as char else c
  }

  predicate EqualsIgnoreCase(a: string, b: string) {
    |a| == |b| && forall i :: 0 <= i < |a| ==> Lower(a[i]) == Lower(b[i])
  }

  /** The length of the digit run `[0-9]+` can take at the front of `s` (greedy). */
  function DigitRun(s: string): (k: nat)
    ensures k <= |s|
    ensures forall i :: 0 <= i < k ==> IsDigit(s[i])
    ensures k < |s| ==> !IsDigit(s[k])
    decreases |s|
  {
    if s != [] && IsDigit(s[0]) then 1 + DigitRun(s[1..]) else 0
  }

  /** The id the pattern captures when it matches at position `p` of `c`. */
  function MatchAt(c: string, p: nat): Option<nat>
    requires p <= |c|
  {
    if p + |Open| <= |c| && EqualsIgnoreCase(c[p..p + |Open|], Open) then
      var q := p + |Open|;
      var k := DigitRun(c[q..]);
      if k > 0 && q + k + |Close| <= |c| && EqualsIgnoreCase(c[q + k..q + k + |Close|], Close)
      then Some(DigitsValue(c[q..q + k]))
      else None
    else None
  }

  /** The leftmost match at position `p` or later. */
  function FindFrom(c: string, p: nat): Option<nat>
    requires p <= |c|
    decreases |c| - p
  {
    if MatchAt(c, p).Some? then MatchAt(c, p)
    else if p == |c| then None
    else FindFrom(c, p + 1)
  }

  /** `c.match(REGEXP_PLACEHOLDER)`: the captured id of the leftmost match, anywhere in `c`. */
  function Find(c: string): Option<nat> {
    FindFrom(c, 0)
  }

  /** Every match opens with '<', which no other character folds to. */
  lemma NoMatchWithoutLt(c: string, p: nat)
    requires p < |c| && c[p] != '<'
    ensures MatchAt(c, p) == None
  {
    assert Lower(c[p]) != '<';
    assert p + |Open| <= |c| ==> Lower(c[p..p + |Open|][0]) != Lower(Open[0]);
  }

  lemma {:induction false} NoLtFromHere(c: string, p: nat)
    requires p <= |c|
    requires forall i :: p <= i < |c| ==> c[i] != '<'
    ensures FindFrom(c, p) == None
    decreases |c| - p
  {
    if p < |c| {
      NoMatchWithoutLt(c, p);
      NoLtFromHere(c, p + 1);
    }
  }

  /** Text without a '<' never matches the placeholder pattern. */
  lemma NoLtNoMarker(c: string)
    requires '<' !in c
    ensures Find(c) == None
  {
    NoLtFromHere(c, 0);
  }

  lemma {:induction false} SkipNoMatch(c: string, p: nat, q: nat)
    requires p <= q <= |c|
    requires forall i :: p <= i < q ==> MatchAt(c, i) == None
    ensures FindFrom(c, p) == FindFrom(c, q)
    decreases q - p
  {
    if p < q {
      SkipNoMatch(c, p + 1, q);
    }
  }

  lemma LowerDigit(x: char, d: char)
    requires IsDigit(d) && Lower(x) == Lower(d)
    ensures x == d
  {
  }

  lemma IgnoreCaseSlice(a: string, b: string, i: nat, j: nat)
    requires EqualsIgnoreCase(a, b) && i <= j <= |a|
    ensures EqualsIgnoreCase(a[i..j], b[i..j])
  {
    forall k | 0 <= k < j - i ensures Lower(a[i..j][k]) == Lower(b[i..j][k]) {
      assert a[i..j][k] == a[i + k] && b[i..j][k] == b[i + k];
    }
  }

  /** Digits do not fold: matching a run of digits ignoring case is matching it exactly. */
  lemma IgnoreCaseDigits(a: string, b: string)
    requires EqualsIgnoreCase(a, b)
    requires forall i :: 0 <= i < |b| ==> IsDigit(b[i])
    ensures a == b
  {
    forall i | 0 <= i < |a| ensures a[i] == b[i] {
      LowerDigit(a[i], b[i]);
    }
  }

  lemma {:induction false} DigitRunExact(s: string, n: nat)
    requires n < |s| && !IsDigit(s[n])
    requires forall i :: 0 <= i < n ==> IsDigit(s[i])
    ensures DigitRun(s) == n
    decreases n
  {
    if n > 0 {
      assert IsDigit(s[0]);
      DigitRunExact(s[1..], n - 1);
    }
  }

  lemma SubSlice(t: string, p: nat, c: string, i: nat, j: nat)
    requires p + |c| <= |t| && t[p..p + |c|] == c && i <= j <= |c|
    ensures t[p + i..p + j] == c[i..j]
  {
    forall k | 0 <= k < j - i ensures t[p + i..p + j][k] == c[i..j][k] {
      assert t[p..p + |c|][i + k] == t[p + i + k];
    }
  }

  /**
   * Text equal ignoring case to `open + d + close`, with `d` digits and
   * `close` opening with a quote, holds `open`, exactly `d`, a non-digit, and
   * `close`, in that order.
   */
  lemma MatchShape(t: string, p: nat, c: string, open: string, d: string, close: string)
    requires p + |c| <= |t| && t[p..p + |c|] == c
    requires EqualsIgnoreCase(c, open + d + close)
    requires forall i :: 0 <= i < |d| ==> IsDigit(d[i])
    requires |close| > 0 && close[0] == '\''
    ensures EqualsIgnoreCase(t[p..p + |open|], open)
    ensures t[p + |open|..p + |open| + |d|] == d
    ensures !IsDigit(t[p + |open| + |d|])
    ensures EqualsIgnoreCase(t[p + |open| + |d|..p + |c|], close)
  {
    var m := open + d + close;
    var n := |open| + |d|;
    assert m[..|open|] == open;
    assert m[|open|..n] == d;
    assert m[n..] == close;
    SubSlice(t, p, c, 0, |open|);
    SubSlice(t, p, c, |open|, n);
    SubSlice(t, p, c, n, |c|);
    IgnoreCaseSlice(c, m, 0, |open|);
    IgnoreCaseSlice(c, m, |open|, n);
    IgnoreCaseSlice(c, m, n, |c|);
    IgnoreCaseDigits(t[p + |open|..p + n], d);
    assert t[p + n] == c[n] && Lower(c[n]) == Lower(m[n]) == '\'';
  }

  /** A placeholder in any letter case is recognised, and gives back its id. */
  lemma MatchMarker(t: string, p: nat, c: string, id: nat)
    requires p + |c| <= |t| && t[p..p + |c|] == c
    requires EqualsIgnoreCase(c, Placeholder(id))
    ensures MatchAt(t, p) == Some(id)
  {
    var d := Digits(id);
    MatchShape(t, p, c, Open, d, Close);
    var q := p + |Open|;
    var s := t[q..];
    forall i | 0 <= i < |d| ensures IsDigit(s[i]) {
      assert s[i] == t[q..q + |d|][i];
    }
    DigitRunExact(s, |d|);
    DigitsRoundTrip(id);
  }

  /**
   * The pattern is not anchored: a placeholder after text without a '<' is
   * found, whatever follows it, and its id is the one captured.
   */
  lemma FindMarker(x: string, c: string, y: string, id: nat)
    requires '<' !in x
    requires EqualsIgnoreCase(c, Placeholder(id))
    ensures Find(x + c + y) == Some(id)
  {
    var t := x + c + y;
    assert t[|x|..|x| + |c|] == c;
    MatchMarker(t, |x|, c, id);
    forall i | 0 <= i < |x| ensures MatchAt(t, i) == None {
      assert t[i] == x[i];
      NoMatchWithoutLt(t, i);
    }
    SkipNoMatch(t, 0, |x|);
  }

  /** Every emitted placeholder is recognised with the id it was emitted with. */
  lemma FindPlaceholder(id: nat)
    ensures Find(Placeholder(id)) == Some(id)
  {
    FindMarker("", Placeholder(id), "", id);
    assert "" + Placeholder(id) + "" == Placeholder(id);
  }
}
