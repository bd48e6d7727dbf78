/**
 * `substitute` of src/render.ts and the seedless `reduce` it is folded with:
 * every chunk holding a placeholder is replaced by the recursively substituted
 * record of its id.
 */
module Substitution {
  import opened Values
  import opened Markers

  /** The two ways the fold can throw instead of returning. */
  datatype Failure =
    | EmptyReduce  // `reduce` of an empty array with no initial value: TypeError
    | Recursion    // a record that leads back to itself: unbounded recursion, RangeError

  datatype Outcome = Done(s: string) | Thrown(f: Failure)

  /** The `chain` map: id to the strings its resolved value was emitted as. */
  type Chain = map<nat, seq<string>>

  /**
   * `list.reduce(substitute.bind(null, chain))`. `visited` holds the ids whose
   * records are being substituted further up the call stack; reaching one of
   * them again would repeat the same calls for ever.
   */
  function Reduce(chain: Chain, visited: set<nat>, list: seq<string>): Outcome
    decreases |chain.Keys - visited|, |list|, 2
  {
    if list == [] then Thrown(EmptyReduce) else Fold(chain, visited, list[0], list[1..])
  }

  /** The rest of the reduction, with `acc` the accumulated string so far. */
  function Fold(chain: Chain, visited: set<nat>, acc: string, rest: seq<string>): Outcome
    decreases |chain.Keys - visited|, |rest|, 1
  {
    if rest == [] then Done(acc)
    else match Substitute(chain, visited, acc, rest[0])
      case Thrown(f) => Thrown(f)
      case Done(next) => Fold(chain, visited, next, rest[1..])
  }

  /**
   * `substitute(chain, a, c)`: `a` followed by `c` itself when `c` holds no
   * placeholder, by the substituted record of the id it holds when there is
   * one, and by "undefined" when `chain` has no such id.
   */
  function Substitute(chain: Chain, visited: set<nat>, a: string, c: string): Outcome
    decreases |chain.Keys - visited|, 0, 0
  {
    match Find(c)
    case None => Done(a + c)
    case Some(id) =>
      if id !in chain then Done(a + "undefined")
      else if id in visited then Thrown(Recursion)
      else
        UnvisitedShrinks(chain.Keys, visited, id);
        match Reduce(chain, visited + {id}, chain[id])
        case Thrown(f) => Thrown(f)
        case Done(r) => Done(a + r)
  }

  lemma UnvisitedShrinks(keys: set<nat>, visited: set<nat>, id: nat)
    requires id in keys && id !in visited
    ensures |keys - (visited + {id})| < |keys - visited|
  {
    assert keys - visited == (keys - (visited + {id})) + {id};
  }

  /** The fold only appends: whatever it returns begins with the accumulator. */
  lemma {:induction false} FoldExtends(chain: Chain, visited: set<nat>, acc: string, rest: seq<string>)
    requires Fold(chain, visited, acc, rest).Done?
    ensures acc <= Fold(chain, visited, acc, rest).s
    decreases |rest|
  {
    if rest != [] {
      var next := Substitute(chain, visited, acc, rest[0]).s;
      assert acc <= next;
      FoldExtends(chain, visited, next, rest[1..]);
    }
  }

  /**
   * With no seed, the first string of a list is kept verbatim: it is never
   * searched for a placeholder.
   */
  lemma ReduceKeepsFirst(chain: Chain, visited: set<nat>, list: seq<string>)
    requires Reduce(chain, visited, list).Done?
    ensures |list| > 0 && list[0] <= Reduce(chain, visited, list).s
  {
    FoldExtends(chain, visited, list[0], list[1..]);
  }

  /**
   * A string whose substitution throws, whatever precedes it, makes the whole
   * fold throw: no partial string is returned. The failure is that string's
   * own when every string before it was substituted.
   */
  lemma {:induction false} FoldThrowsAt(
    chain: Chain, visited: set<nat>, acc: string, rest: seq<string>, k: nat, f: Failure)
    requires k < |rest|
    requires forall a :: Substitute(chain, visited, a, rest[k]) == Thrown(f)
    ensures Fold(chain, visited, acc, rest).Thrown?
    ensures Fold(chain, visited, acc, rest[..k]).Done? ==> Fold(chain, visited, acc, rest) == Thrown(f)
    decreases k
  {
    if k == 0 {
      assert rest[..0] == [];
    } else {
      assert rest[..k][0] == rest[0] && rest[..k][1..] == rest[1..][..k - 1];
      match Substitute(chain, visited, acc, rest[0])
      case Thrown(g) =>
      case Done(next) =>
        FoldThrowsAt(chain, visited, next, rest[1..], k - 1, f);
    }
  }

  /**
   * A placeholder, after the first string, whose id has an empty record
   * makes the whole fold throw; with every string before it substituted,
   * it is the seedless `reduce` of the empty record that throws.
   */
  lemma EmptyRecordThrows(chain: Chain, visited: set<nat>, list: seq<string>, k: nat, id: nat)
    requires 1 <= k < |list| && Find(list[k]) == Some(id)
    requires id in chain && chain[id] == [] && id !in visited
    ensures Reduce(chain, visited, list).Thrown?
    ensures Fold(chain, visited, list[0], list[1..k]).Done? ==> Reduce(chain, visited, list) == Thrown(EmptyReduce)
  {
    forall a ensures Substitute(chain, visited, a, list[k]) == Thrown(EmptyReduce) {
      assert Reduce(chain, visited + {id}, chain[id]) == Thrown(EmptyReduce);
    }
    assert list[1..][k - 1] == list[k] && list[1..][..k - 1] == list[1..k];
    FoldThrowsAt(chain, visited, list[0], list[1..], k - 1, EmptyReduce);
  }

  /** Folding one more string substitutes it into what the fold so far returned. */
  lemma {:induction false} FoldSnoc(chain: Chain, visited: set<nat>, acc: string, rest: seq<string>, c: string)
    ensures Fold(chain, visited, acc, rest + [c]) ==
      match Fold(chain, visited, acc, rest)
      case Thrown(f) => Thrown(f)
      case Done(p) => Substitute(chain, visited, p, c)
    decreases |rest|
  {
    if rest == [] {
      assert [] + [c] == [c] && [c][1..] == [];
    } else {
      assert (rest + [c])[0] == rest[0] && (rest + [c])[1..] == rest[1..] + [c];
      match Substitute(chain, visited, acc, rest[0])
      case Thrown(f) =>
      case Done(next) =>
        FoldSnoc(chain, visited, next, rest[1..], c);
    }
  }

  /**
   * A placeholder, after the first string, whose id is missing from `chain`
   * appends the text "undefined" to what the fold had built so far.
   */
  lemma MissingIdUndefined(chain: Chain, visited: set<nat>, list: seq<string>, k: nat, id: nat, p: string)
    requires 1 <= k < |list| && Find(list[k]) == Some(id) && id !in chain
    requires Fold(chain, visited, list[0], list[1..k]) == Done(p)
    ensures Fold(chain, visited, list[0], list[1..k + 1]) == Done(p + "undefined")
  {
    assert list[1..k + 1] == list[1..k] + [list[k]];
    FoldSnoc(chain, visited, list[0], list[1..k], list[k]);
  }

  /**
   * A chunk holding a placeholder anywhere after text without '<', in any
   * letter case, is substituted exactly as the bare placeholder would be: the
   * text around it is dropped, and the chunk becomes the substituted record.
   */
  lemma WholeChunkReplaced(
    chain: Chain, visited: set<nat>, a: string, x: string, c: string, y: string, id: nat)
    requires '<' !in x
    requires EqualsIgnoreCase(c, Placeholder(id))
    ensures Substitute(chain, visited, a, x + c + y) == Substitute(chain, visited, a, Placeholder(id))
    ensures id in chain && id !in visited && Reduce(chain, visited + {id}, chain[id]).Done? ==>
      Substitute(chain, visited, a, x + c + y) == Done(a + Reduce(chain, visited + {id}, chain[id]).s)
  {
    FindMarker(x, c, y, id);
    FindPlaceholder(id);
  }

  /**
   * A record that holds its own placeholder after its first string cannot be
   * substituted: the placeholder that leads to it throws. With every string
   * of the record before that one substituted, the failure is the recursion.
   */
  lemma SelfReferenceThrows(chain: Chain, visited: set<nat>, a: string, c: string, id: nat, k: nat)
    requires Find(c) == Some(id) && id in chain && id !in visited
    requires 1 <= k < |chain[id]| && Find(chain[id][k]) == Some(id)
    ensures Substitute(chain, visited, a, c).Thrown?
    ensures Fold(chain, visited + {id}, chain[id][0], chain[id][1..k]).Done? ==>
      Substitute(chain, visited, a, c) == Thrown(Recursion)
  {
    var record := chain[id];
    forall b ensures Substitute(chain, visited + {id}, b, record[k]) == Thrown(Recursion) {
    }
    assert record[1..][k - 1] == record[k] && record[1..][..k - 1] == record[1..k];
    FoldThrowsAt(chain, visited + {id}, record[0], record[1..], k - 1, Recursion);
  }
}
