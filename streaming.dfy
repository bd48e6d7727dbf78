/**
 * Streaming rendering, `stream` of src/render.ts: the skeleton first, the
 * client script when something is still pending, then one `<template>`
 * fragment per promise in the order they settle.
 */
module Streaming {
  import opened Values
  import opened Templates
  import opened Markers
  import opened Emitter
  import opened Substitution
  import opened Buffered

  /** `Array.prototype.join('')`. */
  function Join(parts: seq<string>): string
    decreases parts
  {
    if parts == [] then "" else parts[0] + Join(parts[1..])
  }

  /** Joining with the empty separator distributes over concatenation. */
  lemma {:induction false} JoinAppend(a: seq<string>, b: seq<string>)
    ensures Join(a + b) == Join(a) + Join(b)
  {
    if a == [] {
      assert a + b == b;
    } else {
      assert (a + b)[0] == a[0] && (a + b)[1..] == a[1..] + b;
      JoinAppend(a[1..], b);
    }
  }

  /** A body with nothing left pending is its chunks' inline reading: the client can show it as is. */
  lemma {:induction false} JoinSettled(cs: seq<Chunk>, base: nat)
    requires AllText(cs)
    ensures Join(EmitOut(cs, base)) == InlineChunks(cs)
  {
    if cs != [] {
      var rest := EmitOut(cs[1..], base);
      assert EmitOut(cs, base) == [cs[0].s] + rest;
      assert ([cs[0].s] + rest)[1..] == rest;
      JoinSettled(cs[1..], base);
    }
  }

  /** The fragment that carries the body of the promise with this id. */
  function Frame(id: nat, body: string): string {
    "<template data-id='" + Digits(id) + "'>" + body + "</template>"
  }

  /**
   * The fragment flushed for `id` once its value `v` settled, when the queue
   * held `base` entries: the emitted form of the value, joined.
   */
  function Flushed(id: nat, v: Value, base: nat): string {
    Frame(id, Join(EmitOut(Render(Settle(v)), base)))
  }

  /** What `start` enqueues: the skeleton, then the script when a promise is pending. */
  function Opening(template: seq<Chunk>, script: string): seq<string> {
    EmitOut(template, 0) + (if Pendings(template) == [] then [] else [script])
  }

  /**
   * Fragment `k` after the opening: it flushes `order[k]`, whose value was
   * queued before the fragment's own placeholders were numbered from
   * `bases[k]`, and those placeholders' values fill `pushed` up to where the
   * next fragment numbers from.
   */
  ghost predicate FlushedAt(
    pushed: seq<Value>, order: seq<nat>, bases: seq<nat>, fragments: seq<string>, head: nat, k: nat)
  {
    && k < |order| && k < |bases| && head + k < |fragments|
    && order[k] < bases[k] <= |pushed|
    && var uncovered := Pendings(Render(Settle(pushed[order[k]])));
       && Queued(pushed, bases[k], uncovered)
       && fragments[head + k] == Flushed(order[k], pushed[order[k]], bases[k])
       && bases[k] + |uncovered| == (if k + 1 < |bases| then bases[k + 1] else |pushed|)
  }

  /**
   * `stream`, with `start` and the `pull` that drains the queue run one after
   * the other, and every enqueued string collected in order. `script` stands
   * for the client script. In ghost outputs: `pushed` is every value ever
   * queued, by id; `order` the id flushed by each fragment; `bases` the id
   * the fragment's own placeholders were numbered from.
   */
  method Stream(template: seq<Chunk>, script: string)
    returns (fragments: seq<string>, ghost pushed: seq<Value>, ghost order: seq<nat>, ghost bases: seq<nat>)
    ensures Queued(pushed, 0, Pendings(template))
    ensures |fragments| == |Opening(template, script)| + |order|
    ensures fragments[..|Opening(template, script)|] == Opening(template, script)
    ensures Pendings(template) == [] ==> fragments == EmitOut(template, 0)
    // every queued id is flushed exactly once
    ensures forall i :: 0 <= i < |pushed| ==> i in order
    ensures forall k :: 0 <= k < |order| ==> order[k] < |pushed|
    ensures forall k, j :: 0 <= j < k < |order| ==> order[j] != order[k]
    // each fragment is the emitted form of its id's value
    ensures |bases| == |order|
    ensures |order| > 0 ==> bases[0] == |Pendings(template)|
    ensures forall k :: 0 <= k < |order| ==> FlushedAt(pushed, order, bases, fragments, |Opening(template, script)|, k)
  {
    var queue := new Queue();
    fragments := queue.RenderChunk(template);
    if |queue.slots| > 0 {
      fragments := fragments + [script];
    }
    ghost var head := fragments;
    pushed, order, bases := Pendings(template), [], [];
    ghost var done: Chain := map[];
    while HasPending(queue.slots)
      invariant head == Opening(template, script)
      invariant Flushing(pushed, order, bases, fragments, |head|, done)
      invariant fragments[..|head|] == head
      invariant Tracks(queue.slots, pushed, done)
      invariant Queued(pushed, 0, Pendings(template))
      invariant |order| == 0 ==> |pushed| == |Pendings(template)|
      invariant |order| > 0 ==> bases[0] == |Pendings(template)|
      decreases Weight(queue.slots)
    {
      var id: nat :| id < |queue.slots| && queue.slots[id].Some?;
      var value := queue.slots[id].value;
      ghost var before := queue.slots;
      ghost var base: nat := |pushed|;
      ghost var uncovered := Pendings(Render(Settle(value)));
      var records := queue.RenderChunk(Render(Settle(value)));
      TracksStep(before, pushed, done, id, records, uncovered);
      WeightStep(before, id);
      QueuedGrow(pushed, uncovered, 0, Pendings(template));
      StreamStep(pushed, order, bases, fragments, |head|, done, id, records);
      fragments := fragments + [Frame(id, Join(records))];
      queue.slots := queue.slots[id := None];
      done := done[id := records];
      order := order + [id];
      bases := bases + [base];
      pushed := pushed + uncovered;
    }
    Drained(queue.slots, pushed, done);
    FlushedInRange(pushed, order, bases, fragments, |head|);
    FirstBase(pushed, order, bases, fragments, |head|);
    if Pendings(template) == [] {
      assert fragments == fragments[..|head|];
    }
  }

  lemma FlushedInRange(pushed: seq<Value>, order: seq<nat>, bases: seq<nat>, fragments: seq<string>, head: nat)
    requires forall k :: 0 <= k < |order| ==> FlushedAt(pushed, order, bases, fragments, head, k)
    ensures forall k :: 0 <= k < |order| ==> order[k] < |pushed|
  {
    forall k | 0 <= k < |order| ensures order[k] < |pushed| {
      assert FlushedAt(pushed, order, bases, fragments, head, k);
    }
  }

  /** The first fragment flushes an id below its base: with base 0 there is no first fragment. */
  lemma FirstBase(pushed: seq<Value>, order: seq<nat>, bases: seq<nat>, fragments: seq<string>, head: nat)
    requires forall k :: 0 <= k < |order| ==> FlushedAt(pushed, order, bases, fragments, head, k)
    ensures |order| > 0 ==> |bases| > 0 && order[0] < bases[0]
  {
    if |order| > 0 {
      assert FlushedAt(pushed, order, bases, fragments, head, 0);
    }
  }

  /** The fragment for `id` appended after `order`: it describes itself. */
  lemma FlushedNew(
    pushed: seq<Value>, order: seq<nat>, bases: seq<nat>, fragments: seq<string>, head: nat, id: nat,
    pushed': seq<Value>, order': seq<nat>, bases': seq<nat>, fragments': seq<string>)
    requires id < |pushed| && |bases| == |order| && |fragments| == head + |order|
    requires pushed' == pushed + Pendings(Render(Settle(pushed[id])))
    requires order' == order + [id] && bases' == bases + [|pushed|]
    requires fragments' == fragments + [Flushed(id, pushed[id], |pushed|)]
    ensures FlushedAt(pushed', order', bases', fragments', head, |order|)
  {
    var uncovered := Pendings(Render(Settle(pushed[id])));
    assert pushed'[id] == pushed[id];
    QueuedTail(pushed, uncovered);
  }

  /** An earlier fragment keeps its description when one more is appended. */
  lemma FlushedKept(
    pushed: seq<Value>, order: seq<nat>, bases: seq<nat>, fragments: seq<string>, head: nat, id: nat,
    pushed': seq<Value>, order': seq<nat>, bases': seq<nat>, fragments': seq<string>, k: nat)
    requires FlushedAt(pushed, order, bases, fragments, head, k)
    requires id < |pushed| && |bases| == |order| && |fragments| == head + |order|
    requires pushed' == pushed + Pendings(Render(Settle(pushed[id])))
    requires order' == order + [id] && bases' == bases + [|pushed|]
    requires fragments' == fragments + [Flushed(id, pushed[id], |pushed|)]
    ensures FlushedAt(pushed', order', bases', fragments', head, k)
  {
    var x := order[k];
    assert pushed'[x] == pushed[x];
    QueuedGrow(pushed, Pendings(Render(Settle(pushed[id]))), bases[k], Pendings(Render(Settle(pushed[x]))));
  }

  /**
   * The fragments after the opening: one per handled id, each handled id
   * flushed once, each fragment as `FlushedAt` describes it.
   */
  ghost predicate Flushing(
    pushed: seq<Value>, order: seq<nat>, bases: seq<nat>, fragments: seq<string>, head: nat, done: Chain)
  {
    && |fragments| == head + |order| && |bases| == |order|
    && Log(order, done)
    && forall k :: 0 <= k < |order| ==> FlushedAt(pushed, order, bases, fragments, head, k)
  }

  /** Flushing one more id keeps every fragment's description valid and describes the new one. */
  lemma StreamStep(
    pushed: seq<Value>, order: seq<nat>, bases: seq<nat>, fragments: seq<string>, head: nat,
    done: Chain, id: nat, records: seq<string>)
    requires Flushing(pushed, order, bases, fragments, head, done)
    requires id < |pushed| && id !in done
    requires records == EmitOut(Render(Settle(pushed[id])), |pushed|)
    ensures
      var fragments' := fragments + [Frame(id, Join(records))];
      && fragments'[..head] == fragments[..head]
      && Flushing(pushed + Pendings(Render(Settle(pushed[id]))), order + [id], bases + [|pushed|],
                  fragments', head, done[id := records])
  {
    var pushed' := pushed + Pendings(Render(Settle(pushed[id])));
    var order', bases' := order + [id], bases + [|pushed|];
    var fragments' := fragments + [Frame(id, Join(records))];
    assert fragments'[..head] == fragments[..head];
    assert fragments'[|fragments|] == Flushed(id, pushed[id], |pushed|);
    LogStep(order, done, id, records);
    forall k | 0 <= k < |order'| ensures FlushedAt(pushed', order', bases', fragments', head, k) {
      if k == |order| {
        FlushedNew(pushed, order, bases, fragments, head, id, pushed', order', bases', fragments');
      } else {
        FlushedKept(pushed, order, bases, fragments, head, id, pushed', order', bases', fragments', k);
      }
    }
  }

  /** Each id handled so far appears once in `order`, and exactly the handled ids do. */
  ghost predicate Log(order: seq<nat>, done: Chain) {
    && (forall i :: i in done <==> i in order)
    && (forall k, j :: 0 <= j < k < |order| ==> order[j] != order[k])
  }

  lemma LogStep(order: seq<nat>, done: Chain, id: nat, records: seq<string>)
    requires Log(order, done) && id !in done
    ensures Log(order + [id], done[id := records])
  {
  }
}
