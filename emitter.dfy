/**
 * The chunk emitter `renderChunk` of src/render.ts and the promise queue it
 * shares with `stringify` and `stream`.
 */
module Emitter {
  import opened Values
  import opened Markers

  /**
   * What `renderChunk` yields for `chunks` when the queue held `base` entries
   * on entry: text as it is, and a placeholder with the next free id for each
   * pending chunk.
   */
  function EmitOut(chunks: seq<Chunk>, base: nat): seq<string>
  {
    if chunks == [] then []
    else match chunks[0]
      case Text(s) => [s] + EmitOut(chunks[1..], base)
      case Pending(_) => [Placeholder(base)] + EmitOut(chunks[1..], base + 1)
  }

  /** Queue entries holding the given values: a promise is a defined slot. */
  function AsSlots(vs: seq<Value>): (r: seq<Option<Value>>)
    ensures |r| == |vs| && forall i :: 0 <= i < |vs| ==> r[i] == Some(vs[i])
  {
    seq(|vs|, i requires 0 <= i < |vs| => Some(vs[i]))
  }

  /** `queue.filter(Boolean).length` is not zero: some slot still holds a promise. */
  predicate HasPending(slots: seq<Option<Value>>) {
    exists i :: 0 <= i < |slots| && slots[i].Some?
  }

  /** The total size of the values still waited for. */
  function Weight(slots: seq<Option<Value>>): nat {
    if slots == [] then 0
    else (if slots[0].Some? then Size(slots[0].value) else 0) + Weight(slots[1..])
  }

  class Queue {
    /** The `queue` array: a slot is a promise still waited for, or `undefined` once handled. */
    var slots: seq<Option<Value>>

    constructor()
      ensures slots == []
    {
      slots := [];
    }

    /** `renderChunk(chunks, queue)`, with everything it yields collected in order. */
    method RenderChunk(chunks: seq<Chunk>) returns (out: seq<string>)
      modifies this
      ensures out == EmitOut(chunks, old(|slots|))
      ensures slots == old(slots) + AsSlots(Pendings(chunks))
    {
      out := [];
      ghost var start := slots;
      for i := 0 to |chunks|
        invariant out == EmitOut(chunks[..i], |start|)
        invariant slots == start + AsSlots(Pendings(chunks[..i]))
      {
        assert chunks[..i + 1] == chunks[..i] + [chunks[i]];
        EmitOutAppend(chunks[..i], [chunks[i]], |start|);
        PendingsAppend(chunks[..i], [chunks[i]]);
        assert [chunks[i]][1..] == [];
        match chunks[i]
        case Text(s) =>
          out := out + [s];
        case Pending(v) =>
          var id := |slots|;
          slots := slots + [Some(v)];
          out := out + [Placeholder(id)];
      }
      assert chunks[..|chunks|] == chunks;
    }
  }

  lemma {:induction false} EmitOutAppend(a: seq<Chunk>, b: seq<Chunk>, base: nat)
    ensures EmitOut(a + b, base) == EmitOut(a, base) + EmitOut(b, base + |Pendings(a)|)
  {
    if a == [] {
      assert a + b == b;
    } else {
      assert (a + b)[0] == a[0] && (a + b)[1..] == a[1..] + b;
      EmitOutAppend(a[1..], b, if a[0].Pending? then base + 1 else base);
    }
  }

  /**
   * One output string per chunk: text passes unchanged, and the k-th pending
   * chunk gets id `base + k`, the index its value is queued at.
   */
  lemma {:induction false} EmitOutAt(chunks: seq<Chunk>, base: nat, j: nat)
    requires j < |chunks|
    ensures |EmitOut(chunks, base)| == |chunks|
    ensures chunks[j].Text? ==> EmitOut(chunks, base)[j] == chunks[j].s
    ensures chunks[j].Pending? ==>
      var k := |Pendings(chunks[..j])|;
      && EmitOut(chunks, base)[j] == Placeholder(base + k)
      && k < |Pendings(chunks)| && Pendings(chunks)[k] == chunks[j].v
  {
    var next := if chunks[0].Pending? then base + 1 else base;
    if j == 0 {
      assert chunks[..0] == [];
      if |chunks| > 1 {
        EmitOutAt(chunks[1..], next, 0);
      }
    } else {
      EmitOutAt(chunks[1..], next, j - 1);
      assert chunks[..j] == [chunks[0]] + chunks[1..][..j - 1];
      PendingsAppend([chunks[0]], chunks[1..][..j - 1]);
      assert [chunks[0]][1..] == [];
    }
  }

  lemma {:induction false} WeightAppend(a: seq<Option<Value>>, b: seq<Option<Value>>)
    ensures Weight(a + b) == Weight(a) + Weight(b)
  {
    if a == [] {
      assert a + b == b;
    } else {
      assert (a + b)[0] == a[0] && (a + b)[1..] == a[1..] + b;
      WeightAppend(a[1..], b);
    }
  }

  lemma {:induction false} WeightAsSlots(vs: seq<Value>)
    ensures Weight(AsSlots(vs)) == SizeAll(vs)
  {
    if vs != [] {
      assert AsSlots(vs)[1..] == AsSlots(vs[1..]);
      WeightAsSlots(vs[1..]);
    }
  }

  /** Handling a slot takes its value's size off the weight. */
  lemma {:induction false} WeightClear(slots: seq<Option<Value>>, i: nat)
    requires i < |slots| && slots[i].Some?
    ensures Weight(slots[i := None]) + Size(slots[i].value) == Weight(slots)
  {
    if i > 0 {
      assert slots[i := None][1..] == slots[1..][i - 1 := None];
      WeightClear(slots[1..], i - 1);
    }
  }
}
