/**
 * The fragment trimmer `trim` of src/render.ts: `/\s+</g` and then `/>\s+/g`
 * are replaced, so whitespace between a tag and its neighbour disappears.
 */
module Trimming {

  /** The ECMAScript `\s` class: WhiteSpace (with every Zs character) and LineTerminator. */
  predicate IsWs(c: char) {
    c == '\t' || c == '\n' || c == '\U{000B}' || c == '\U{000C}' || c == '\r' || c == ' '
    || c == '\U{00A0}' || c == '\U{1680}' || ('\U{2000}' <= c <= '\U{200A}')
    || c == '\U{2028}' || c == '\U{2029}' || c == '\U{202F}' || c == '\U{205F}'
    || c == '\U{3000}' || c == '\U{FEFF}'
  }

  /** `s` opens with a whitespace run (possibly empty) that ends at a '<'. */
  predicate LtAfterWs(s: string) {
    |s| > 0 && (s[0] == '<' || (IsWs(s[0]) && LtAfterWs(s[1..])))
  }

  /**
   * `replace(/\s+</g, '<')`. The greedy run cannot end early on a '<', so a
   * whitespace character is removed exactly when its run reaches a '<'.
   */
  function TrimBeforeTags(s: string): string {
    if s == [] then []
    else if IsWs(s[0]) && LtAfterWs(s[1..]) then TrimBeforeTags(s[1..])
    else [s[0]] + TrimBeforeTags(s[1..])
  }

  /**
   * `replace(/>\s+/g, '>')`; `afterGt` says that the characters already read
   * end in a '>' followed by whitespace only, so a whitespace character here
   * belongs to a run the regex removes.
   */
  function TrimAfterTags(s: string, afterGt: bool): string {
    if s == [] then []
    else if IsWs(s[0]) && afterGt then TrimAfterTags(s[1..], true)
    else [s[0]] + TrimAfterTags(s[1..], s[0] == '>')
  }

  function Trim(s: string): string {
    TrimAfterTags(TrimBeforeTags(s), false)
  }

  /** `t` is `s` with some of its whitespace characters taken out, and nothing else changed. */
  ghost predicate DeletesWs(s: string, t: string) {
    if s == [] then t == []
    else
      || (IsWs(s[0]) && DeletesWs(s[1..], t))
      || (t != [] && t[0] == s[0] && DeletesWs(s[1..], t[1..]))
  }

  /** No whitespace character sits directly before a '<'. */
  ghost predicate NoWsBeforeLt(s: string) {
    forall i :: 0 <= i < |s| - 1 && s[i + 1] == '<' ==> !IsWs(s[i])
  }

  /** No whitespace character sits directly after a '>'. */
  ghost predicate NoWsAfterGt(s: string) {
    forall i :: 0 < i < |s| && s[i - 1] == '>' ==> !IsWs(s[i])
  }

  /** No whitespace run anywhere in `s` ends at a '<'. */
  ghost predicate NoWsRunBeforeLt(s: string) {
    s == [] || ((IsWs(s[0]) ==> !LtAfterWs(s[1..])) && NoWsRunBeforeLt(s[1..]))
  }

  lemma {:induction false} DeletesWsRefl(s: string)
    ensures DeletesWs(s, s)
  {
    if s != [] {
      DeletesWsRefl(s[1..]);
    }
  }

  lemma {:induction false} DeletesWsTrans(s: string, t: string, u: string)
    requires DeletesWs(s, t) && DeletesWs(t, u)
    ensures DeletesWs(s, u)
  {
    if s != [] {
      if IsWs(s[0]) && DeletesWs(s[1..], t) {
        DeletesWsTrans(s[1..], t, u);
      } else {
        assert t != [] && t[0] == s[0] && DeletesWs(s[1..], t[1..]);
        if IsWs(t[0]) && DeletesWs(t[1..], u) {
          DeletesWsTrans(s[1..], t[1..], u);
        } else {
          DeletesWsTrans(s[1..], t[1..], u[1..]);
        }
      }
    }
  }

  lemma {:induction false} TrimBeforeDeletesWs(s: string)
    ensures DeletesWs(s, TrimBeforeTags(s))
  {
    if s != [] {
      TrimBeforeDeletesWs(s[1..]);
    }
  }

  lemma {:induction false} TrimAfterDeletesWs(s: string, afterGt: bool)
    ensures DeletesWs(s, TrimAfterTags(s, afterGt))
  {
    if s != [] {
      TrimAfterDeletesWs(s[1..], if IsWs(s[0]) && afterGt then true else s[0] == '>');
    }
  }

  /** Trimming only ever removes whitespace characters. */
  lemma TrimDeletesWs(s: string)
    ensures DeletesWs(s, Trim(s))
  {
    TrimBeforeDeletesWs(s);
    TrimAfterDeletesWs(TrimBeforeTags(s), false);
    DeletesWsTrans(s, TrimBeforeTags(s), Trim(s));
  }

  lemma {:induction false} LtAfterWsTrimBefore(s: string)
    requires LtAfterWs(TrimBeforeTags(s))
    ensures LtAfterWs(s)
  {
    if !(IsWs(s[0]) && LtAfterWs(s[1..])) {
      var t := TrimBeforeTags(s);
      assert t[0] == s[0] && t[1..] == TrimBeforeTags(s[1..]);
      if s[0] != '<' {
        LtAfterWsTrimBefore(s[1..]);
      }
    }
  }

  lemma {:induction false} LtAfterWsTrimAfter(s: string, afterGt: bool)
    requires LtAfterWs(TrimAfterTags(s, afterGt))
    ensures LtAfterWs(s)
  {
    if IsWs(s[0]) && afterGt {
      LtAfterWsTrimAfter(s[1..], true);
    } else {
      var t := TrimAfterTags(s, afterGt);
      assert t[0] == s[0] && t[1..] == TrimAfterTags(s[1..], s[0] == '>');
      if s[0] != '<' {
        LtAfterWsTrimAfter(s[1..], s[0] == '>');
      }
    }
  }

  lemma {:induction false} TrimBeforeClean(s: string)
    ensures NoWsRunBeforeLt(TrimBeforeTags(s))
  {
    if s != [] {
      TrimBeforeClean(s[1..]);
      if !(IsWs(s[0]) && LtAfterWs(s[1..])) {
        var t := TrimBeforeTags(s);
        assert t[1..] == TrimBeforeTags(s[1..]);
        if IsWs(s[0]) && LtAfterWs(t[1..]) {
          LtAfterWsTrimBefore(s[1..]);
        }
      }
    }
  }

  lemma {:induction false} TrimAfterKeepsClean(s: string, afterGt: bool)
    requires NoWsRunBeforeLt(s)
    ensures NoWsRunBeforeLt(TrimAfterTags(s, afterGt))
  {
    if s != [] {
      if IsWs(s[0]) && afterGt {
        TrimAfterKeepsClean(s[1..], true);
      } else {
        TrimAfterKeepsClean(s[1..], s[0] == '>');
        var t := TrimAfterTags(s, afterGt);
        assert t[1..] == TrimAfterTags(s[1..], s[0] == '>');
        if IsWs(s[0]) && LtAfterWs(t[1..]) {
          LtAfterWsTrimAfter(s[1..], s[0] == '>');
        }
      }
    }
  }

  lemma {:induction false} CleanHasNoWsBeforeLt(s: string)
    requires NoWsRunBeforeLt(s)
    ensures NoWsBeforeLt(s)
  {
    if s != [] {
      CleanHasNoWsBeforeLt(s[1..]);
      forall i | 0 <= i < |s| - 1 && s[i + 1] == '<' ensures !IsWs(s[i]) {
        if i == 0 {
          assert LtAfterWs(s[1..]);
        } else {
          assert s[1..][i - 1] == s[i] && s[1..][i] == s[i + 1];
        }
      }
    }
  }

  lemma {:induction false} TrimAfterNoWsAfterGt(s: string, afterGt: bool)
    ensures NoWsAfterGt(TrimAfterTags(s, afterGt))
    ensures afterGt && TrimAfterTags(s, afterGt) != [] ==> !IsWs(TrimAfterTags(s, afterGt)[0])
  {
    if s != [] {
      var next := if IsWs(s[0]) && afterGt then true else s[0] == '>';
      TrimAfterNoWsAfterGt(s[1..], next);
      var t := TrimAfterTags(s, afterGt);
      if !(IsWs(s[0]) && afterGt) {
        assert t[1..] == TrimAfterTags(s[1..], s[0] == '>');
        forall i | 0 < i < |t| && t[i - 1] == '>' ensures !IsWs(t[i]) {
          if i > 1 {
            assert t[1..][i - 2] == t[i - 1] && t[1..][i - 1] == t[i];
          }
        }
      }
    }
  }

  /** After trimming, no whitespace is left against the inner side of a tag bracket. */
  lemma TrimTight(s: string)
    ensures NoWsBeforeLt(Trim(s))
    ensures NoWsAfterGt(Trim(s))
  {
    TrimBeforeClean(s);
    TrimAfterKeepsClean(TrimBeforeTags(s), false);
    CleanHasNoWsBeforeLt(Trim(s));
    TrimAfterNoWsAfterGt(TrimBeforeTags(s), false);
  }

  lemma {:induction false} TrimBeforeNoLt(s: string)
    requires '<' !in s
    ensures TrimBeforeTags(s) == s
  {
    if s != [] {
      NoLtNoLtAfterWs(s[1..]);
      TrimBeforeNoLt(s[1..]);
    }
  }

  lemma {:induction false} NoLtNoLtAfterWs(s: string)
    requires '<' !in s
    ensures !LtAfterWs(s)
  {
    if s != [] {
      NoLtNoLtAfterWs(s[1..]);
    }
  }

  lemma {:induction false} TrimAfterNoGt(s: string)
    requires '>' !in s
    ensures TrimAfterTags(s, false) == s
  {
    if s != [] {
      TrimAfterNoGt(s[1..]);
    }
  }

  /** Text that holds no tag bracket is left exactly as it is, leading and trailing whitespace included. */
  lemma TrimNoTags(s: string)
    requires '<' !in s && '>' !in s
    ensures Trim(s) == s
  {
    TrimBeforeNoLt(s);
    TrimAfterNoGt(s);
  }

  /** Every character of `w` is whitespace. */
  predicate AllWs(w: string) {
    forall i :: 0 <= i < |w| ==> IsWs(w[i])
  }

  /** When `t` does not open with a run ending at '<', what follows `u` cannot extend a run of `u`'s to one. */
  lemma {:induction false} LtAfterWsAppend(u: string, t: string)
    requires !LtAfterWs(t)
    ensures LtAfterWs(u + t) == LtAfterWs(u)
  {
    if u == [] {
      assert u + t == t;
    } else {
      assert (u + t)[0] == u[0] && (u + t)[1..] == u[1..] + t;
      LtAfterWsAppend(u[1..], t);
    }
  }

  /** The first replace works on `s` and `t` apart when `t` does not open with a run ending at '<'. */
  lemma {:induction false} TrimBeforeAppend(s: string, t: string)
    requires !LtAfterWs(t)
    ensures TrimBeforeTags(s + t) == TrimBeforeTags(s) + TrimBeforeTags(t)
  {
    if s == [] {
      assert s + t == t;
    } else {
      assert (s + t)[0] == s[0] && (s + t)[1..] == s[1..] + t;
      LtAfterWsAppend(s[1..], t);
      TrimBeforeAppend(s[1..], t);
    }
  }

  /** The first replace keeps a last character that is not whitespace. */
  lemma {:induction false} TrimBeforeLast(s: string)
    requires |s| > 0 && !IsWs(s[|s| - 1])
    ensures |TrimBeforeTags(s)| > 0 && TrimBeforeTags(s)[|TrimBeforeTags(s)| - 1] == s[|s| - 1]
  {
    if |s| > 1 {
      TrimBeforeLast(s[1..]);
    }
  }

  /** The second replace works on `s` and `t` apart when `s` ends in neither whitespace nor '>'. */
  lemma {:induction false} TrimAfterAppend(s: string, t: string, afterGt: bool)
    requires |s| > 0 && !IsWs(s[|s| - 1]) && s[|s| - 1] != '>'
    ensures TrimAfterTags(s + t, afterGt) == TrimAfterTags(s, afterGt) + TrimAfterTags(t, false)
  {
    assert (s + t)[0] == s[0] && (s + t)[1..] == s[1..] + t;
    if |s| == 1 {
      assert s[1..] + t == t;
    } else {
      TrimAfterAppend(s[1..], t, if IsWs(s[0]) && afterGt then true else s[0] == '>');
    }
  }

  /** Whitespace not preceded by a '>' passes the second replace. */
  lemma {:induction false} TrimAfterWs(w: string, t: string)
    requires AllWs(w)
    ensures TrimAfterTags(w + t, false) == w + TrimAfterTags(t, false)
  {
    if w == [] {
      assert w + t == t;
    } else {
      assert (w + t)[0] == w[0] && (w + t)[1..] == w[1..] + t;
      TrimAfterWs(w[1..], t);
    }
  }

  /** The first replace keeps a whitespace run that does not end at '<'. */
  lemma TrimBeforeKeepsWs(x: string, w: string, y: string)
    requires AllWs(w)
    requires y == [] || (!IsWs(y[0]) && y[0] != '<')
    ensures TrimBeforeTags(x + (w + y)) == TrimBeforeTags(x) + (w + TrimBeforeTags(y))
  {
    assert !LtAfterWs(y);
    assert '<' !in w by {
      assert forall i :: 0 <= i < |w| ==> w[i] != '<';
    }
    NoLtNoLtAfterWs(w);
    LtAfterWsAppend(w, y);
    TrimBeforeAppend(x, w + y);
    TrimBeforeAppend(w, y);
    TrimBeforeNoLt(w);
  }

  /** The second replace keeps a whitespace run that does not follow '>'. */
  lemma TrimAfterKeepsWs(tx: string, w: string, ty: string)
    requires AllWs(w)
    requires tx == [] || (!IsWs(tx[|tx| - 1]) && tx[|tx| - 1] != '>')
    ensures TrimAfterTags(tx + (w + ty), false) == TrimAfterTags(tx, false) + (w + TrimAfterTags(ty, false))
  {
    TrimAfterWs(w, ty);
    if tx == [] {
      assert tx + (w + ty) == w + ty;
    } else {
      TrimAfterAppend(tx, w + ty, false);
    }
  }

  /**
   * Whitespace that touches no tag bracket survives trimming: between text
   * that ends in neither whitespace nor '>' and text that opens with neither
   * whitespace nor '<', a whitespace run is kept as it is, and each side is
   * trimmed on its own.
   */
  lemma TrimKeepsTextWs(x: string, w: string, y: string)
    requires AllWs(w)
    requires x == [] || (!IsWs(x[|x| - 1]) && x[|x| - 1] != '>')
    requires y == [] || (!IsWs(y[0]) && y[0] != '<')
    ensures Trim(x + w + y) == Trim(x) + w + Trim(y)
  {
    assert x + w + y == x + (w + y);
    TrimBeforeKeepsWs(x, w, y);
    if x != [] {
      TrimBeforeLast(x);
    }
    TrimAfterKeepsWs(TrimBeforeTags(x), w, TrimBeforeTags(y));
  }
}
