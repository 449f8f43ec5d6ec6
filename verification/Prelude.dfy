/** Small shared vocabulary: bytes, optional values and results. */
module Prelude {
  newtype Byte = x: int | 0 <= x < 256

  type Bytes = seq<Byte>

  datatype Option<+T> = None | Some(value: T)

  datatype Result<+T, +E> = Ok(value: T) | Err(error: E)

  function Min(a: int, b: int): int {
    if a < b then a else b
  }

  function Max(a: int, b: int): int {
    if a < b then b else a
  }

  /** The last `n` elements of `s`, or all of them when there are fewer. */
  function LastN<T>(s: seq<T>, n: nat): seq<T> {
    if |s| <= n then s else s[|s| - n..]
  }

  // ---- Selections ----

  /** The elements that are wanted, in their order. */
  function Filter<T>(all: seq<T>, wanted: T -> bool): seq<T> {
    if all == [] then [] else
      var last := all[|all| - 1];
      Filter(all[..|all| - 1], wanted) + if wanted(last) then [last] else []
  }

  function SumOf<T>(all: seq<T>, amount: T -> int): int {
    if all == [] then 0 else SumOf(all[..|all| - 1], amount) + amount(all[|all| - 1])
  }

  lemma FilterSnoc<T>(init: seq<T>, last: T, wanted: T -> bool)
    ensures Filter(init + [last], wanted) == Filter(init, wanted) + if wanted(last) then [last] else []
  {
    assert (init + [last])[..|init|] == init;
  }

  /** One more element, counted and summed if it is wanted. */
  lemma FilterSums<T>(all: seq<T>, wanted: T -> bool, amount: T -> int)
    requires all != []
    ensures var before, last := Filter(all[..|all| - 1], wanted), all[|all| - 1];
            && |Filter(all, wanted)| == |before| + (if wanted(last) then 1 else 0)
            && SumOf(Filter(all, wanted), amount) == SumOf(before, amount) + if wanted(last) then amount(last) else 0
  {
    var before, last := Filter(all[..|all| - 1], wanted), all[|all| - 1];
    assert (before + [last])[..|before|] == before && before + [] == before;
  }

  /** A selection holds each wanted element as often as it occurs, and no other. */
  lemma {:induction false} FilterCounts<T>(all: seq<T>, wanted: T -> bool, x: T)
    ensures multiset(Filter(all, wanted))[x] == if wanted(x) then multiset(all)[x] else 0
  {
    if all != [] {
      var init, last := all[..|all| - 1], all[|all| - 1];
      FilterCounts(init, wanted, x);
      assert all == init + [last];
      assert multiset(all) == multiset(init) + multiset{last};
      if wanted(last) {
        assert multiset(Filter(all, wanted)) == multiset(Filter(init, wanted)) + multiset{last};
      } else {
        assert Filter(all, wanted) == Filter(init, wanted);
      }
    }
  }

  /** It keeps the order: its elements stand at ascending positions. */
  lemma {:induction false} FilterPositions<T>(all: seq<T>, wanted: T -> bool) returns (at: seq<nat>)
    ensures |at| == |Filter(all, wanted)| && forall k, l | 0 <= k < l < |at| :: at[k] < at[l]
    ensures forall k | 0 <= k < |at| :: at[k] < |all| && Filter(all, wanted)[k] == all[at[k]]
  {
    if all == [] {
      at := [];
    } else {
      var init := all[..|all| - 1];
      at := FilterPositions(init, wanted);
      if wanted(all[|all| - 1]) {
        at := at + [|init|];
      }
    }
  }

  lemma {:induction false} FilterMembers<T>(all: seq<T>, wanted: T -> bool, x: T)
    ensures x in Filter(all, wanted) <==> x in all && wanted(x)
  {
    if all != [] {
      FilterMembers(all[..|all| - 1], wanted, x);
      assert all == all[..|all| - 1] + [all[|all| - 1]];
    }
  }

  lemma {:induction false} FilterSame<T>(all: seq<T>, f: T -> bool, g: T -> bool)
    requires forall x | x in all :: f(x) == g(x)
    ensures Filter(all, f) == Filter(all, g)
  {
    if all != [] {
      assert all[|all| - 1] in all;
      FilterSame(all[..|all| - 1], f, g);
    }
  }

  lemma {:induction false} FilterAppend<T>(a: seq<T>, b: seq<T>, wanted: T -> bool)
    ensures Filter(a + b, wanted) == Filter(a, wanted) + Filter(b, wanted)
  {
    if b == [] {
      assert a + b == a;
    } else {
      var init, last := b[..|b| - 1], b[|b| - 1];
      FilterAppend(a, init, wanted);
      assert a + b == a + init + [last];
      FilterSnoc(a + init, last, wanted);
    }
  }
}
