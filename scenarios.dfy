/**
 * The templates exercised by test/render.test.ts, stated for any fragments
 * and values of the same shape: what each reads as once inlined, and that
 * each is clean, so that `Stringify` returns exactly that reading.
 */
module Scenarios {
  import opened Escaping
  import opened Trimming
  import opened Values
  import opened Templates
  import opened Buffered

  lemma InlineText(s: string)
    ensures InlineChunks([Text(s)]) == s
  {
    assert [Text(s)][1..] == [];
  }

  /** A template with one expression reads as its fragments trimmed around the expression's reading. */
  lemma HtmlOne(a: string, b: string, e: Value)
    ensures InlineChunks(Html([a, b], [e])) == Trim(a) + Inline(e) + Trim(b)
  {
    HtmlExtend([a], b, [e]);
    assert [a] + [b] == [a, b];
    assert Html([a], [e]) == [Text(Trim(a))] by {
      assert [a][1..] == [];
    }
    var first, middle, last := [Text(Trim(a))], Render(e), [Text(Trim(b))];
    InlineChunksAppend(first + middle, last);
    InlineChunksAppend(first, middle);
    RenderMeaning(e);
    InlineText(Trim(a));
    InlineText(Trim(b));
  }

  /** Two fragments whose trimmed forms hold no placeholder. */
  ghost predicate PlainPair(a: string, b: string) {
    NoMarker(Trim(a)) && NoMarker(Trim(b))
  }

  lemma HtmlOneClean(a: string, b: string, e: Value)
    requires PlainPair(a, b) && CleanValue(e)
    ensures Leads(Html([a, b], [e])) && CleanChunks(Html([a, b], [e]))
  {
    HtmlClean([a, b], [e]);
  }

  /** A template without expressions reads as its fragment trimmed (tests render, no_trim, trim). */
  lemma LiteralTemplate(s: string)
    requires NoMarker(Trim(s))
    ensures Leads(Html([s], [])) && CleanChunks(Html([s], []))
    ensures InlineChunks(Html([s], [])) == Trim(s)
  {
    HtmlClean([s], []);
    HtmlLiteral(s);
    InlineText(Trim(s));
  }

  /** An interpolated string is escaped in place (tests escape, and conditional, whose expression evaluates to a string). */
  lemma Interpolation(a: string, x: string, b: string)
    requires PlainPair(a, b)
    ensures Leads(Html([a, b], [Str(x)])) && CleanChunks(Html([a, b], [Str(x)]))
    ensures InlineChunks(Html([a, b], [Str(x)])) == Trim(a) + Escape(x) + Trim(b)
  {
    HtmlOneClean(a, b, Str(x));
    HtmlOne(a, b, Str(x));
  }

  /** Appending a rendered expression and a fragment appends their readings. */
  lemma InlineStep(front: seq<Chunk>, e: Value, s: string)
    ensures InlineChunks(front + Render(e) + [Text(s)]) == InlineChunks(front) + Inline(e) + s
  {
    InlineChunksAppend(front + Render(e), [Text(s)]);
    InlineChunksAppend(front, Render(e));
    RenderMeaning(e);
    InlineText(s);
  }

  /** Two interpolated strings, each escaped in place between its fragments (test interpolation). */
  lemma Interpolation2(a: string, x: string, b: string, y: string, c: string)
    requires PlainPair(a, b) && NoMarker(Trim(c))
    ensures
      var t := Html([a, b, c], [Str(x), Str(y)]);
      && Leads(t) && CleanChunks(t)
      && InlineChunks(t) == Trim(a) + Escape(x) + Trim(b) + Escape(y) + Trim(c)
  {
    var exprs := [Str(x), Str(y)];
    assert forall i :: 0 <= i < |[a, b, c]| ==> NoMarker(Trim([a, b, c][i]));
    HtmlClean([a, b, c], exprs);
    assert Html([a], exprs) == [Text(Trim(a))] by {
      assert [a][1..] == [];
    }
    assert [a] + [b] == [a, b] && [a, b] + [c] == [a, b, c];
    HtmlExtend([a], b, exprs);
    HtmlExtend([a, b], c, exprs);
    InlineText(Trim(a));
    InlineStep([Text(Trim(a))], Str(x), Trim(b));
    InlineStep(Html([a, b], exprs), Str(y), Trim(c));
  }

  /** A non-string is stringified and not escaped (test numerical). */
  lemma Stringified(a: string, r: string, b: string)
    requires PlainPair(a, b) && NoMarker(r)
    ensures Leads(Html([a, b], [Other(r)])) && CleanChunks(Html([a, b], [Other(r)]))
    ensures InlineChunks(Html([a, b], [Other(r)])) == Trim(a) + r + Trim(b)
  {
    HtmlOneClean(a, b, Other(r));
    HtmlOne(a, b, Other(r));
  }

  /** A promise of a string reads as the string escaped, as if inlined (test thenable). */
  lemma Thenable(a: string, x: string, b: string)
    requires PlainPair(a, b)
    ensures Leads(Html([a, b], [Deferred(Str(x))])) && CleanChunks(Html([a, b], [Deferred(Str(x))]))
    ensures InlineChunks(Html([a, b], [Deferred(Str(x))])) == Trim(a) + Escape(x) + Trim(b)
  {
    DeferredStringClean(x);
    HtmlOneClean(a, b, Deferred(Str(x)));
    HtmlOne(a, b, Deferred(Str(x)));
  }

  /** A promise of a template holding a promise of a string (test nested_thenable). */
  lemma NestedThenable(a: string, c: string, x: string, d: string, b: string)
    requires PlainPair(a, b) && PlainPair(c, d)
    ensures
      var inner := Html([c, d], [Deferred(Str(x))]);
      var outer := Html([a, b], [Deferred(Gen(inner))]);
      && Leads(outer) && CleanChunks(outer)
      && InlineChunks(outer) == Trim(a) + (Trim(c) + Escape(x) + Trim(d)) + Trim(b)
  {
    var inner := Html([c, d], [Deferred(Str(x))]);
    DeferredStringClean(x);
    DeferredTemplateClean([c, d], [Deferred(Str(x))]);
    HtmlOneClean(a, b, Deferred(Gen(inner)));
    HtmlOne(c, d, Deferred(Str(x)));
    HtmlOne(a, b, Deferred(Gen(inner)));
  }

  /** A template nested without a promise is spliced in place (test composition). */
  lemma Composition(a: string, c: string, b: string)
    requires PlainPair(a, b) && NoMarker(Trim(c))
    ensures
      var outer := Html([a, b], [Gen(Html([c], []))]);
      && Leads(outer) && CleanChunks(outer)
      && InlineChunks(outer) == Trim(a) + Trim(c) + Trim(b)
  {
    LiteralTemplate(c);
    HtmlOneClean(a, b, Gen(Html([c], [])));
    HtmlOne(a, b, Gen(Html([c], [])));
  }

  /** An array of strings, one `Str` per string. */
  function Strs(xs: seq<string>): (r: seq<Value>)
    ensures |r| == |xs|
  {
    if xs == [] then [] else [Str(xs[0])] + Strs(xs[1..])
  }

  /** The strings escaped, one after the other with no separator. */
  function Escaped(xs: seq<string>): string {
    if xs == [] then "" else Escape(xs[0]) + Escaped(xs[1..])
  }

  lemma {:induction false} StrsInline(xs: seq<string>)
    ensures InlineAll(Strs(xs)) == Escaped(xs)
    ensures CleanAll(Strs(xs))
  {
    if xs != [] {
      assert Strs(xs)[0] == Str(xs[0]) && Strs(xs)[1..] == Strs(xs[1..]);
      StrsInline(xs[1..]);
    }
  }

  /** An array of strings flattens in order, each escaped, with no separator (test iterables). */
  lemma Iterables(a: string, xs: seq<string>, b: string)
    requires PlainPair(a, b)
    ensures
      var t := Html([a, b], [Arr(Strs(xs))]);
      && Leads(t) && CleanChunks(t)
      && InlineChunks(t) == Trim(a) + Escaped(xs) + Trim(b)
  {
    StrsInline(xs);
    HtmlOneClean(a, b, Arr(Strs(xs)));
    HtmlOne(a, b, Arr(Strs(xs)));
  }

  /** An array of non-strings, each by its `String(...)` form. */
  function Others(rs: seq<string>): (r: seq<Value>)
    ensures |r| == |rs|
  {
    if rs == [] then [] else [Other(rs[0])] + Others(rs[1..])
  }

  /** The forms one after the other with no separator. */
  function Concat(rs: seq<string>): string {
    if rs == [] then "" else rs[0] + Concat(rs[1..])
  }

  lemma {:induction false} OthersInline(rs: seq<string>)
    requires forall i :: 0 <= i < |rs| ==> NoMarker(rs[i])
    ensures InlineAll(Others(rs)) == Concat(rs)
    ensures CleanAll(Others(rs))
  {
    if rs != [] {
      assert Others(rs)[0] == Other(rs[0]) && Others(rs)[1..] == Others(rs[1..]);
      assert NoMarker(rs[0]);
      OthersInline(rs[1..]);
    }
  }

  /**
   * An array of numbers flattens in order, each only stringified, with no
   * separator (test numerical_iterables).
   */
  lemma NumericalIterables(a: string, rs: seq<string>, b: string)
    requires PlainPair(a, b)
    requires forall i :: 0 <= i < |rs| ==> NoMarker(rs[i])
    ensures
      var t := Html([a, b], [Arr(Others(rs))]);
      && Leads(t) && CleanChunks(t)
      && InlineChunks(t) == Trim(a) + Concat(rs) + Trim(b)
  {
    OthersInline(rs);
    HtmlOneClean(a, b, Arr(Others(rs)));
    HtmlOne(a, b, Arr(Others(rs)));
  }

  /** `xs.map((x) => html`c${Promise.resolve(x)}d`)`. */
  function Items(xs: seq<string>, c: string, d: string): (r: seq<Value>)
    ensures |r| == |xs|
  {
    if xs == [] then [] else [Gen(Html([c, d], [Deferred(Str(xs[0]))]))] + Items(xs[1..], c, d)
  }

  /** What the mapped items read as: each string escaped between the trimmed fragments. */
  function Listing(xs: seq<string>, c: string, d: string): string {
    if xs == [] then "" else Trim(c) + Escape(xs[0]) + Trim(d) + Listing(xs[1..], c, d)
  }

  lemma {:induction false} ItemsInline(xs: seq<string>, c: string, d: string)
    requires PlainPair(c, d)
    ensures InlineAll(Items(xs, c, d)) == Listing(xs, c, d)
    ensures CleanAll(Items(xs, c, d))
  {
    if xs != [] {
      var item := Gen(Html([c, d], [Deferred(Str(xs[0]))]));
      assert Items(xs, c, d)[0] == item && Items(xs, c, d)[1..] == Items(xs[1..], c, d);
      ItemsInline(xs[1..], c, d);
      Thenable(c, xs[0], d);
    }
  }

  /**
   * An array of templates, each holding a promise, flattens in order with no
   * separator (test composed_iterable_thenable).
   */
  lemma ComposedIterableThenable(a: string, xs: seq<string>, c: string, d: string, b: string)
    requires PlainPair(a, b) && PlainPair(c, d)
    ensures
      var outer := Html([a, b], [Arr(Items(xs, c, d))]);
      && Leads(outer) && CleanChunks(outer)
      && InlineChunks(outer) == Trim(a) + Listing(xs, c, d) + Trim(b)
  {
    ItemsInline(xs, c, d);
    HtmlOneClean(a, b, Arr(Items(xs, c, d)));
    HtmlOne(a, b, Arr(Items(xs, c, d)));
  }
}
