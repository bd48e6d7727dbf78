/**
 * Buffered rendering, `stringify` of src/render.ts: emit the template, drain
 * the queue in whatever order the promises settle, then substitute every
 * placeholder by its record.
 */
module Buffered {
  import opened Escaping
  import opened Values
  import opened Templates
  import opened Markers
  import opened Emitter
  import opened Substitution

  /** Text in which the placeholder pattern finds nothing. */
  predicate NoMarker(s: string) {
    Find(s) == None
  }

  /**
   * The conditions under which a value renders as its inline reading: no
   * literal text in it looks like a placeholder, and every promise in it
   * resolves to something whose rendering opens with literal text (the
   * first string of a record is never substituted).
   */
  ghost predicate CleanValue(v: Value)
    decreases v, 0
  {
    match v
    case Str(_) => true
    case Other(r) => NoMarker(r)
    case Arr(items) => CleanAll(items)
    case Gen(cs) => CleanChunks(cs)
    case Deferred(u) => CleanResolved(u)
  }

  ghost predicate CleanAll(items: seq<Value>)
    decreases items, 0
  {
    items == [] || (CleanValue(items[0]) && CleanAll(items[1..]))
  }

  ghost predicate CleanChunks(cs: seq<Chunk>)
    decreases cs, 0
  {
    cs == [] || (CleanChunk(cs[0]) && CleanChunks(cs[1..]))
  }

  ghost predicate CleanChunk(c: Chunk)
    decreases c, 0
  {
    match c
    case Text(s) => NoMarker(s)
    case Pending(u) => CleanResolved(u)
  }

  /** A promise resolving to `u` whose record can be substituted back faithfully. */
  ghost predicate CleanResolved(u: Value)
    decreases u, 1
  {
    CleanValue(u) && Leads(Render(Settle(u)))
  }

  lemma {:induction false} CleanChunksAppend(a: seq<Chunk>, b: seq<Chunk>)
    requires CleanChunks(a) && CleanChunks(b)
    ensures CleanChunks(a + b)
  {
    if a == [] {
      assert a + b == b;
    } else {
      assert (a + b)[0] == a[0] && (a + b)[1..] == a[1..] + b;
      CleanChunksAppend(a[1..], b);
    }
  }

  lemma EscapedNoMarker(s: string)
    ensures NoMarker(Escape(s))
  {
    EscapeSafe(s);
    NoLtNoMarker(Escape(s));
  }

  lemma CleanSingle(c: Chunk)
    requires CleanChunk(c)
    ensures CleanChunks([c])
  {
    assert [c][1..] == [];
  }

  /** Rendering a clean value yields clean chunks. */
  lemma {:induction false} CleanRender(v: Value)
    requires CleanValue(v)
    ensures CleanChunks(Render(v))
    decreases v
  {
    match v
    case Str(s) =>
      EscapedNoMarker(s);
      CleanSingle(Text(Escape(s)));
    case Other(r) => CleanSingle(Text(r));
    case Arr(items) => CleanRenderAll(items);
    case Gen(cs) =>
    case Deferred(u) => CleanSingle(Pending(u));
  }

  lemma {:induction false} CleanRenderAll(items: seq<Value>)
    requires CleanAll(items)
    ensures CleanChunks(RenderAll(items))
    decreases items
  {
    if items != [] {
      CleanRender(items[0]);
      CleanRenderAll(items[1..]);
      CleanChunksAppend(Render(items[0]), RenderAll(items[1..]));
    }
  }

  /** Adoption keeps a clean promise clean. */
  lemma {:induction false} CleanSettle(u: Value)
    requires CleanResolved(u)
    ensures CleanValue(Settle(u)) && Leads(Render(Settle(u)))
  {
    if u.Deferred? {
      CleanSettle(u.v);
    }
  }

  /** Every value in `pushed` is a clean promise. */
  ghost predicate AllClean(pushed: seq<Value>) {
    forall i :: 0 <= i < |pushed| ==> CleanResolved(pushed[i])
  }

  /** Every promise left in clean chunks is itself clean. */
  lemma {:induction false} CleanPendings(cs: seq<Chunk>)
    requires CleanChunks(cs)
    ensures AllClean(Pendings(cs))
  {
    if cs != [] {
      CleanPendings(cs[1..]);
      var head := if cs[0].Pending? then [cs[0].v] else [];
      assert Pendings(cs) == head + Pendings(cs[1..]);
    }
  }

  /** Re-rendering a clean promise queues only clean promises. */
  lemma CleanStep(pushed: seq<Value>, value: Value)
    requires AllClean(pushed) && CleanResolved(value)
    ensures AllClean(pushed + Pendings(Render(Settle(value))))
  {
    CleanSettle(value);
    CleanRender(Settle(value));
    CleanPendings(Render(Settle(value)));
  }

  /** `vs` sits in `pushed` from index `b` on. */
  ghost predicate Queued(pushed: seq<Value>, b: nat, vs: seq<Value>) {
    b + |vs| <= |pushed| && pushed[b..b + |vs|] == vs
  }

  lemma QueuedGrow(pushed: seq<Value>, more: seq<Value>, b: nat, vs: seq<Value>)
    requires Queued(pushed, b, vs)
    ensures Queued(pushed + more, b, vs)
  {
    assert (pushed + more)[b..b + |vs|] == pushed[b..b + |vs|];
  }

  lemma QueuedTail(pushed: seq<Value>, more: seq<Value>)
    ensures Queued(pushed + more, |pushed|, more)
  {
    assert (pushed + more)[|pushed|..|pushed| + |more|] == more;
  }

  lemma QueuedHead(pushed: seq<Value>, b: nat, vs: seq<Value>)
    requires Queued(pushed, b, vs) && vs != []
    ensures pushed[b] == vs[0] && Queued(pushed, b + 1, vs[1..])
  {
    assert pushed[b] == pushed[b..b + |vs|][0];
    assert pushed[b + 1..b + |vs|] == pushed[b..b + |vs|][1..];
  }

  /**
   * Record `i` of `chain`: the emitted form of what the value queued at `i`
   * resolves to, with its promises queued from `bases[i]` on, above `i`.
   */
  ghost predicate Record(chain: Chain, bases: map<nat, nat>, pushed: seq<Value>, i: nat)
    requires i in chain
  {
    && i < |pushed| && i in bases && i < bases[i]
    && Queued(pushed, bases[i], Pendings(Render(Settle(pushed[i]))))
    && chain[i] == EmitOut(Render(Settle(pushed[i])), bases[i])
  }

  ghost predicate Recorded(chain: Chain, bases: map<nat, nat>, pushed: seq<Value>) {
    forall i :: i in chain ==> Record(chain, bases, pushed, i)
  }

  lemma RecordKept(
    chain: Chain, bases: map<nat, nat>, pushed: seq<Value>,
    chain': Chain, bases': map<nat, nat>, more: seq<Value>, i: nat)
    requires i in chain && Record(chain, bases, pushed, i)
    requires i in chain' && chain'[i] == chain[i]
    requires i in bases' && bases'[i] == bases[i]
    ensures Record(chain', bases', pushed + more, i)
  {
    assert (pushed + more)[i] == pushed[i];
    QueuedGrow(pushed, more, bases[i], Pendings(Render(Settle(pushed[i]))));
  }

  /** The record made for `id` when the queue held `|pushed|` entries is valid. */
  lemma RecordNew(pushed: seq<Value>, id: nat, records: seq<string>, chain': Chain, bases': map<nat, nat>)
    requires id < |pushed|
    requires records == EmitOut(Render(Settle(pushed[id])), |pushed|)
    requires id in chain' && chain'[id] == records
    requires id in bases' && bases'[id] == |pushed|
    ensures Record(chain', bases', pushed + Pendings(Render(Settle(pushed[id]))), id)
  {
    var uncovered := Pendings(Render(Settle(pushed[id])));
    assert (pushed + uncovered)[id] == pushed[id];
    QueuedTail(pushed, uncovered);
  }

  /** Queueing more values and recording one more id keeps every record valid. */
  lemma RecordStep(chain: Chain, bases: map<nat, nat>, pushed: seq<Value>, id: nat, records: seq<string>)
    requires Recorded(chain, bases, pushed)
    requires id < |pushed| && id !in chain
    requires records == EmitOut(Render(Settle(pushed[id])), |pushed|)
    ensures
      var uncovered := Pendings(Render(Settle(pushed[id])));
      Recorded(chain[id := records], bases[id := |pushed|], pushed + uncovered)
  {
    var uncovered := Pendings(Render(Settle(pushed[id])));
    var chain', bases' := chain[id := records], bases[id := |pushed|];
    forall i | i in chain' ensures Record(chain', bases', pushed + uncovered, i) {
      if i == id {
        RecordNew(pushed, id, records, chain', bases');
      } else {
        RecordKept(chain, bases, pushed, chain', bases', uncovered, i);
      }
    }
  }

  /** The queue's slots mirror `pushed`: a slot is emptied exactly when its id has a record. */
  ghost predicate Tracks(slots: seq<Option<Value>>, pushed: seq<Value>, chain: Chain) {
    && |slots| == |pushed|
    && (forall i :: 0 <= i < |slots| && slots[i].Some? ==> slots[i].value == pushed[i])
    && (forall i :: 0 <= i < |slots| ==> (slots[i].None? <==> i in chain))
    && (forall i :: i in chain ==> i < |slots|)
  }

  lemma TracksStep(
    slots: seq<Option<Value>>, pushed: seq<Value>, chain: Chain,
    id: nat, records: seq<string>, uncovered: seq<Value>)
    requires Tracks(slots, pushed, chain) && id < |slots| && slots[id].Some?
    ensures Tracks((slots + AsSlots(uncovered))[id := None], pushed + uncovered, chain[id := records])
  {
  }

  /** Once no slot holds a promise, every queued id has a record. */
  lemma Drained(slots: seq<Option<Value>>, pushed: seq<Value>, chain: Chain)
    requires Tracks(slots, pushed, chain) && !HasPending(slots)
    ensures forall i :: 0 <= i < |pushed| ==> i in chain
  {
    forall i | 0 <= i < |pushed| ensures i in chain {
      assert slots[i].None?;
    }
  }

  /** Handling a slot lightens the queue: the promises it uncovers weigh less than it did. */
  lemma WeightStep(slots: seq<Option<Value>>, id: nat)
    requires id < |slots| && slots[id].Some?
    ensures
      var uncovered := Pendings(Render(Settle(slots[id].value)));
      Weight((slots + AsSlots(uncovered))[id := None]) < Weight(slots)
  {
    var value := slots[id].value;
    var uncovered := Pendings(Render(Settle(value)));
    assert (slots + AsSlots(uncovered))[id := None] == slots[id := None] + AsSlots(uncovered);
    WeightAppend(slots[id := None], AsSlots(uncovered));
    WeightAsSlots(uncovered);
    WeightClear(slots, id);
    RenderLighter(Settle(value));
  }

  /** After the drain: every queued id has a faithful record and every queued value is clean. */
  ghost predicate Complete(chain: Chain, bases: map<nat, nat>, pushed: seq<Value>) {
    && (forall i :: 0 <= i < |pushed| ==> i in chain)
    && Recorded(chain, bases, pushed)
    && AllClean(pushed)
  }

  lemma EmitHead(cs: seq<Chunk>, b: nat)
    requires cs != []
    ensures EmitOut(cs, b) != []
    ensures cs[0].Text? ==>
      && EmitOut(cs, b)[0] == cs[0].s && EmitOut(cs, b)[1..] == EmitOut(cs[1..], b)
      && Pendings(cs) == Pendings(cs[1..])
    ensures cs[0].Pending? ==>
      && EmitOut(cs, b)[0] == Placeholder(b) && EmitOut(cs, b)[1..] == EmitOut(cs[1..], b + 1)
      && Pendings(cs) == [cs[0].v] + Pendings(cs[1..])
  {
  }

  /** The placeholder of a queued id is replaced by the inline reading of its value. */
  lemma {:induction false} SubstituteEmitted(
    chain: Chain, bases: map<nat, nat>, pushed: seq<Value>,
    visited: set<nat>, acc: string, b: nat)
    requires Complete(chain, bases, pushed)
    requires b < |pushed|
    requires forall x :: x in visited ==> x < b
    ensures Substitute(chain, visited, acc, Placeholder(b)) == Done(acc + Inline(pushed[b]))
    decreases |pushed| - b, 0
  {
    var u := pushed[b];
    FindPlaceholder(b);
    assert b in chain && b !in visited;
    assert Record(chain, bases, pushed, b);
    CleanSettle(u);
    CleanRender(Settle(u));
    ReduceEmitted(chain, bases, pushed, visited + {b}, Render(Settle(u)), bases[b]);
    RenderMeaning(Settle(u));
    InlineSettle(u);
  }

  /** One step of the fold: substitute the first string, then fold the rest. */
  lemma FoldStep(chain: Chain, visited: set<nat>, acc: string, out: seq<string>, next: string)
    requires out != [] && Substitute(chain, visited, acc, out[0]) == Done(next)
    ensures Fold(chain, visited, acc, out) == Fold(chain, visited, next, out[1..])
  {
  }

  lemma {:induction false} FoldEmitted(
    chain: Chain, bases: map<nat, nat>, pushed: seq<Value>,
    visited: set<nat>, acc: string, cs: seq<Chunk>, b: nat)
    requires Complete(chain, bases, pushed)
    requires CleanChunks(cs) && Queued(pushed, b, Pendings(cs))
    requires forall x :: x in visited ==> x < b
    ensures Fold(chain, visited, acc, EmitOut(cs, b)) == Done(acc + InlineChunks(cs))
    decreases |pushed| - b, |cs|
  {
    if cs != [] {
      EmitHead(cs, b);
      var out := EmitOut(cs, b);
      var next := acc + InlineChunk(cs[0]);
      if cs[0].Text? {
        assert Substitute(chain, visited, acc, out[0]) == Done(next);
        FoldStep(chain, visited, acc, out, next);
        FoldEmitted(chain, bases, pushed, visited, next, cs[1..], b);
      } else {
        QueuedHead(pushed, b, Pendings(cs));
        SubstituteEmitted(chain, bases, pushed, visited, acc, b);
        FoldStep(chain, visited, acc, out, next);
        FoldEmitted(chain, bases, pushed, visited, next, cs[1..], b + 1);
      }
      assert next + InlineChunks(cs[1..]) == acc + InlineChunks(cs);
    }
  }

  lemma {:induction false} ReduceEmitted(
    chain: Chain, bases: map<nat, nat>, pushed: seq<Value>,
    visited: set<nat>, cs: seq<Chunk>, b: nat)
    requires Complete(chain, bases, pushed)
    requires CleanChunks(cs) && Leads(cs) && Queued(pushed, b, Pendings(cs))
    requires forall x :: x in visited ==> x < b
    ensures Reduce(chain, visited, EmitOut(cs, b)) == Done(InlineChunks(cs))
    decreases |pushed| - b, |cs|
  {
    EmitHead(cs, b);
    FoldEmitted(chain, bases, pushed, visited, cs[0].s, cs[1..], b);
  }

  /**
   * `stringify`. Each pass takes some slot still holding a promise (the one
   * `Promise.race` reports), records the emitted form of its value under its
   * id and clears the slot; once no slot is left, the skeleton is folded.
   * Whatever order the promises settle in, a clean template that opens with
   * literal text comes out as its inline reading.
   */
  method Stringify(template: seq<Chunk>) returns (result: Outcome)
    ensures template == [] ==> result == Thrown(EmptyReduce)
    ensures Leads(template) && CleanChunks(template) ==> result == Done(InlineChunks(template))
  {
    var queue := new Queue();
    var chain: Chain := map[];
    var output := queue.RenderChunk(template);
    ghost var pushed := Pendings(template);
    ghost var bases: map<nat, nat> := map[];
    ghost var clean := CleanChunks(template);
    if clean {
      CleanPendings(template);
    }
    while HasPending(queue.slots)
      invariant output == EmitOut(template, 0)
      invariant Tracks(queue.slots, pushed, chain)
      invariant Queued(pushed, 0, Pendings(template))
      invariant Recorded(chain, bases, pushed)
      invariant clean ==> AllClean(pushed)
      decreases Weight(queue.slots)
    {
      var id :| 0 <= id < |queue.slots| && queue.slots[id].Some?;
      var value := queue.slots[id].value;
      ghost var before := queue.slots;
      ghost var uncovered := Pendings(Render(Settle(value)));
      var records := queue.RenderChunk(Render(Settle(value)));
      RecordStep(chain, bases, pushed, id, records);
      TracksStep(before, pushed, chain, id, records, uncovered);
      WeightStep(before, id);
      QueuedGrow(pushed, uncovered, 0, Pendings(template));
      if clean {
        CleanStep(pushed, value);
      }
      chain := chain[id := records];
      queue.slots := queue.slots[id := None];
      bases := bases[id := |pushed|];
      pushed := pushed + uncovered;
    }
    result := Reduce(chain, {}, output);
    if Leads(template) && clean {
      Drained(queue.slots, pushed, chain);
      ReduceEmitted(chain, bases, pushed, {}, template, 0);
    }
  }

  /** A template whose fragments and expressions are clean is clean, and opens with literal text. */
  lemma HtmlClean(strings: seq<string>, exprs: seq<Value>)
    requires forall i :: 0 <= i < |strings| ==> NoMarker(Trimming.Trim(strings[i]))
    requires forall i :: 0 <= i < |exprs| ==> CleanValue(exprs[i])
    ensures Leads(Html(strings, exprs)) && CleanChunks(Html(strings, exprs))
  {
    if strings == [] {
      NoLtNoMarker(Trimming.Trim(""));
      CleanSingle(Text(Trimming.Trim("")));
    } else {
      HtmlSlotsClean(strings[1..], exprs, 0);
      CleanSingle(Text(Trimming.Trim(strings[0])));
      CleanChunksAppend([Text(Trimming.Trim(strings[0]))], HtmlSlots(strings[1..], exprs, 0));
    }
  }

  lemma {:induction false} HtmlSlotsClean(rest: seq<string>, exprs: seq<Value>, i: nat)
    requires forall j :: 0 <= j < |rest| ==> NoMarker(Trimming.Trim(rest[j]))
    requires forall j :: 0 <= j < |exprs| ==> CleanValue(exprs[j])
    ensures CleanChunks(HtmlSlots(rest, exprs, i))
    decreases |rest| - i
  {
    if i < |rest| {
      if i >= |exprs| {
        NoLtNoMarker("undefined");
      }
      CleanRender(ExprAt(exprs, i));
      HtmlSlotsClean(rest, exprs, i + 1);
      var text: seq<Chunk> := [Text(Trimming.Trim(rest[i]))];
      CleanSingle(Text(Trimming.Trim(rest[i])));
      CleanChunksAppend(Render(ExprAt(exprs, i)), text);
      CleanChunksAppend(Render(ExprAt(exprs, i)) + text, HtmlSlots(rest, exprs, i + 1));
    }
  }

  /** A promise of a string is clean: it renders as the string inlined would. */
  lemma DeferredStringClean(s: string)
    ensures CleanValue(Deferred(Str(s)))
    ensures Inline(Deferred(Str(s))) == Escape(s)
  {
    EscapedNoMarker(s);
  }

  /** A promise of a clean template is clean: templates always open with a fragment. */
  lemma DeferredTemplateClean(strings: seq<string>, exprs: seq<Value>)
    requires forall i :: 0 <= i < |strings| ==> NoMarker(Trimming.Trim(strings[i]))
    requires forall i :: 0 <= i < |exprs| ==> CleanValue(exprs[i])
    ensures CleanValue(Deferred(Gen(Html(strings, exprs))))
  {
    HtmlClean(strings, exprs);
  }
}
