/** The tag function `html` and the value flattener `render` of src/render.ts. */
module Templates {
  import opened Escaping
  import opened Trimming
  import opened Values

  /**
   * `render`: a promise becomes one pending chunk, an array is flattened
   * element by element, an iterable is spliced as it is, a string is escaped
   * and anything else is only stringified.
   */
  function Render(v: Value): seq<Chunk>
    decreases v
  {
    match v
    case Deferred(u) => [Pending(u)]
    case Arr(items) => RenderAll(items)
    case Gen(cs) => cs
    case Str(s) => [Text(Escape(s))]
    case Other(r) => [Text(r)]
  }

  /** The `for (const part of chunk) yield* render(part)` branch. */
  function RenderAll(items: seq<Value>): seq<Chunk>
    decreases items
  {
    if items == [] then [] else Render(items[0]) + RenderAll(items[1..])
  }

  /** `expressions[i]`, which is `undefined` past the end of the expressions. */
  function ExprAt(exprs: seq<Value>, i: nat): Value {
    if i < |exprs| then exprs[i] else Other("undefined")
  }

  /**
   * `html` as a tag: the first fragment (default '') trimmed, then for each
   * later fragment the rendered expression before it and the fragment trimmed.
   */
  function Html(strings: seq<string>, exprs: seq<Value>): (r: seq<Chunk>)
    ensures |r| > 0 && r[0] == Text(Trim(if strings == [] then "" else strings[0]))
  {
    if strings == [] then [Text(Trim(""))]
    else [Text(Trim(strings[0]))] + HtmlSlots(strings[1..], exprs, 0)
  }

  /** The loop over `strings.entries()` from entry `i` on. */
  function HtmlSlots(rest: seq<string>, exprs: seq<Value>, i: nat): seq<Chunk>
    decreases |rest| - i
  {
    if i >= |rest| then []
    else Render(ExprAt(exprs, i)) + [Text(Trim(rest[i]))] + HtmlSlots(rest, exprs, i + 1)
  }

  /** Chunks that open with a literal text chunk. */
  predicate Leads(cs: seq<Chunk>) {
    |cs| > 0 && cs[0].Text?
  }

  /**
   * The promises a value holds where `render` can see them: not inside
   * another promise, in the order of the value.
   */
  function Promises(v: Value): seq<Value>
    decreases v
  {
    match v
    case Deferred(u) => [u]
    case Arr(items) => PromisesAll(items)
    case Gen(cs) => Pendings(cs)
    case Str(_) => []
    case Other(_) => []
  }

  function PromisesAll(items: seq<Value>): seq<Value>
    decreases items
  {
    if items == [] then [] else Promises(items[0]) + PromisesAll(items[1..])
  }

  lemma {:induction false} RenderAllAppend(a: seq<Value>, b: seq<Value>)
    ensures RenderAll(a + b) == RenderAll(a) + RenderAll(b)
  {
    if a == [] {
      assert a + b == b;
    } else {
      assert (a + b)[0] == a[0] && (a + b)[1..] == a[1..] + b;
      RenderAllAppend(a[1..], b);
    }
  }

  /** Flattening keeps the meaning: the rendered chunks read as the value itself. */
  lemma {:induction false} RenderMeaning(v: Value)
    ensures InlineChunks(Render(v)) == Inline(v)
    decreases v
  {
    match v
    case Deferred(u) =>
      assert InlineChunks(Render(v)) == Inline(u) + InlineChunks([]);
    case Arr(items) => RenderAllMeaning(items);
    case Gen(cs) =>
    case Str(s) =>
      assert InlineChunks(Render(v)) == Escape(s) + InlineChunks([]);
    case Other(r) =>
      assert InlineChunks(Render(v)) == r + InlineChunks([]);
  }

  lemma {:induction false} RenderAllMeaning(items: seq<Value>)
    ensures InlineChunks(RenderAll(items)) == InlineAll(items)
    decreases items
  {
    if items != [] {
      RenderMeaning(items[0]);
      RenderAllMeaning(items[1..]);
      InlineChunksAppend(Render(items[0]), RenderAll(items[1..]));
    }
  }

  /** Each promise `render` meets becomes exactly one pending chunk, in order. */
  lemma {:induction false} RenderPromises(v: Value)
    ensures Pendings(Render(v)) == Promises(v)
    decreases v
  {
    match v
    case Deferred(u) =>
      assert Pendings(Render(v)) == [u] + Pendings([]);
    case Arr(items) => RenderAllPromises(items);
    case Gen(cs) =>
    case Str(s) =>
      assert Pendings(Render(v)) == [] + Pendings([]);
    case Other(r) =>
      assert Pendings(Render(v)) == [] + Pendings([]);
  }

  lemma {:induction false} RenderAllPromises(items: seq<Value>)
    ensures Pendings(RenderAll(items)) == PromisesAll(items)
    decreases items
  {
    if items != [] {
      RenderPromises(items[0]);
      RenderAllPromises(items[1..]);
      PendingsAppend(Render(items[0]), RenderAll(items[1..]));
    }
  }

  /**
   * The promises uncovered by rendering a value weigh strictly less than the
   * value: re-rendering resolved values cannot go on for ever.
   */
  lemma {:induction false} RenderLighter(v: Value)
    ensures SizeAll(Pendings(Render(v))) < Size(v)
    decreases v
  {
    match v
    case Deferred(u) =>
      assert Pendings(Render(v)) == [u] + Pendings([]);
      assert SizeAll([u]) == Size(u) + SizeAll([u][1..]);
    case Arr(items) => RenderAllLighter(items);
    case Gen(cs) => PendingsLighter(cs);
    case Str(s) =>
      assert Pendings(Render(v)) == [] + Pendings([]);
    case Other(r) =>
      assert Pendings(Render(v)) == [] + Pendings([]);
  }

  lemma {:induction false} RenderAllLighter(items: seq<Value>)
    ensures SizeAll(Pendings(RenderAll(items))) <= SizeAll(items)
    decreases items
  {
    if items != [] {
      RenderLighter(items[0]);
      RenderAllLighter(items[1..]);
      PendingsAppend(Render(items[0]), RenderAll(items[1..]));
      SizeAllAppend(Pendings(Render(items[0])), Pendings(RenderAll(items[1..])));
    }
  }

  /** A template without expressions is its one fragment, trimmed and not escaped. */
  lemma HtmlLiteral(s: string)
    ensures Html([s], []) == [Text(Trim(s))]
  {
    assert [s][1..] == [];
  }

  lemma {:induction false} HtmlSlotsExtend(rest: seq<string>, s: string, exprs: seq<Value>, i: nat)
    requires i <= |rest|
    ensures HtmlSlots(rest + [s], exprs, i)
         == HtmlSlots(rest, exprs, i) + Render(ExprAt(exprs, |rest|)) + [Text(Trim(s))]
    decreases |rest| - i
  {
    if i == |rest| {
      assert (rest + [s])[i] == s;
      assert HtmlSlots(rest + [s], exprs, i + 1) == [];
    } else {
      assert (rest + [s])[i] == rest[i];
      HtmlSlotsExtend(rest, s, exprs, i + 1);
    }
  }

  /**
   * One more fragment adds, after everything before it, the rendered
   * expression that precedes it and then the fragment trimmed.
   */
  lemma HtmlExtend(strings: seq<string>, s: string, exprs: seq<Value>)
    requires |strings| > 0
    ensures Html(strings + [s], exprs)
         == Html(strings, exprs) + Render(ExprAt(exprs, |strings| - 1)) + [Text(Trim(s))]
  {
    assert (strings + [s])[0] == strings[0];
    assert (strings + [s])[1..] == strings[1..] + [s];
    HtmlSlotsExtend(strings[1..], s, exprs, 0);
  }
}
