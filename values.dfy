/**
 * The values a template interpolates and the chunks it is flattened into
 * (the `Chunk` type of src/render.ts and what `render` distinguishes).
 */
module Values {
  import opened Escaping

  datatype Option<T> = None | Some(value: T)

  /**
   * An interpolated value, classified as `render` classifies it. A promise is
   * represented by the value it resolves to.
   */
  datatype Value =
    | Str(s: string)           // a string: escaped
    | Other(repr: string)      // any other value, by its `String(...)` form
    | Arr(items: seq<Value>)   // an array: flattened
    | Gen(chunks: seq<Chunk>)  // any other non-string iterable, e.g. a nested `html` template: spliced
    | Deferred(v: Value)       // a promise

  /** A chunk: literal text, or a promise still to be waited for. */
  datatype Chunk = Text(s: string) | Pending(v: Value)

  function Size(v: Value): nat
    decreases v
  {
    match v
    case Str(_) => 1
    case Other(_) => 1
    case Arr(items) => 1 + SizeAll(items)
    case Gen(cs) => 1 + SizeChunks(cs)
    case Deferred(u) => 1 + Size(u)
  }

  function SizeAll(items: seq<Value>): nat
    decreases items
  {
    if items == [] then 0 else Size(items[0]) + SizeAll(items[1..])
  }

  function SizeChunks(cs: seq<Chunk>): nat
    decreases cs
  {
    if cs == [] then 0 else SizeChunk(cs[0]) + SizeChunks(cs[1..])
  }

  function SizeChunk(c: Chunk): nat
    decreases c
  {
    match c
    case Text(_) => 1
    case Pending(u) => 1 + Size(u)
  }

  /**
   * A promise that resolves to a promise adopts it, so the value a `then`
   * callback receives is never itself a promise.
   */
  function Settle(v: Value): (r: Value)
    ensures !r.Deferred?
    ensures Size(r) <= Size(v)
    ensures v.Deferred? ==> Size(r) < Size(v)
  {
    if v.Deferred? then Settle(v.v) else v
  }

  /** The values of the pending chunks of `cs`, in order. */
  function Pendings(cs: seq<Chunk>): seq<Value> {
    if cs == [] then []
    else (if cs[0].Pending? then [cs[0].v] else []) + Pendings(cs[1..])
  }

  /** Literal text chunks only: nothing is left to wait for. */
  predicate AllText(cs: seq<Chunk>) {
    forall i :: 0 <= i < |cs| ==> cs[i].Text?
  }

  /**
   * The reference reading of a value: the text it stands for once every
   * promise in it has resolved in place.
   */
  function Inline(v: Value): string
    decreases v
  {
    match v
    case Str(s) => Escape(s)
    case Other(r) => r
    case Arr(items) => InlineAll(items)
    case Gen(cs) => InlineChunks(cs)
    case Deferred(u) => Inline(u)
  }

  function InlineAll(items: seq<Value>): string
    decreases items
  {
    if items == [] then [] else Inline(items[0]) + InlineAll(items[1..])
  }

  function InlineChunks(cs: seq<Chunk>): string
    decreases cs
  {
    if cs == [] then [] else InlineChunk(cs[0]) + InlineChunks(cs[1..])
  }

  function InlineChunk(c: Chunk): string
    decreases c
  {
    match c
    case Text(s) => s
    case Pending(u) => Inline(u)
  }

  lemma {:induction false} PendingsAppend(a: seq<Chunk>, b: seq<Chunk>)
    ensures Pendings(a + b) == Pendings(a) + Pendings(b)
  {
    if a == [] {
      assert a + b == b;
    } else {
      assert (a + b)[0] == a[0] && (a + b)[1..] == a[1..] + b;
      PendingsAppend(a[1..], b);
    }
  }

  lemma {:induction false} InlineChunksAppend(a: seq<Chunk>, b: seq<Chunk>)
    ensures InlineChunks(a + b) == InlineChunks(a) + InlineChunks(b)
  {
    if a == [] {
      assert a + b == b;
    } else {
      assert (a + b)[0] == a[0] && (a + b)[1..] == a[1..] + b;
      InlineChunksAppend(a[1..], b);
    }
  }

  lemma {:induction false} SizeChunksAppend(a: seq<Chunk>, b: seq<Chunk>)
    ensures SizeChunks(a + b) == SizeChunks(a) + SizeChunks(b)
  {
    if a == [] {
      assert a + b == b;
    } else {
      assert (a + b)[0] == a[0] && (a + b)[1..] == a[1..] + b;
      SizeChunksAppend(a[1..], b);
    }
  }

  lemma {:induction false} SizeAllAppend(a: seq<Value>, b: seq<Value>)
    ensures SizeAll(a + b) == SizeAll(a) + SizeAll(b)
  {
    if a == [] {
      assert a + b == b;
    } else {
      assert (a + b)[0] == a[0] && (a + b)[1..] == a[1..] + b;
      SizeAllAppend(a[1..], b);
    }
  }

  /** Adoption does not change what a value reads as. */
  lemma {:induction false} InlineSettle(v: Value)
    ensures Inline(Settle(v)) == Inline(v)
  {
    if v.Deferred? {
      InlineSettle(v.v);
    }
  }

  /** The pending values of a chunk list weigh less than the chunks themselves. */
  lemma {:induction false} PendingsLighter(cs: seq<Chunk>)
    ensures SizeAll(Pendings(cs)) + |cs| <= SizeChunks(cs)
  {
    if cs != [] {
      PendingsLighter(cs[1..]);
      var head := if cs[0].Pending? then [cs[0].v] else [];
      SizeAllAppend(head, Pendings(cs[1..]));
      if cs[0].Pending? {
        assert SizeAll(head) == Size(cs[0].v) by {
          assert head[1..] == [];
        }
      }
    }
  }

  /** A chunk list has no pending values exactly when every chunk is literal text. */
  lemma {:induction false} NoPendingsAllText(cs: seq<Chunk>)
    ensures Pendings(cs) == [] <==> AllText(cs)
  {
    if cs != [] {
      NoPendingsAllText(cs[1..]);
      assert forall i :: 1 <= i < |cs| ==> cs[i] == cs[1..][i - 1];
      if cs[0].Pending? {
        assert Pendings(cs)[0] == cs[0].v;
      }
    }
  }
}
