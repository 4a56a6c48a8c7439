/**
 Selections from a sequence: the elements at some positions, in order.
 */
module Selections {

  // Positions in a sequence of length n, in order and without repetition.
  predicate Ascending(at: seq<nat>, n: nat) {
    && (forall k :: 0 <= k < |at| ==> at[k] < n)
    && (forall j, k :: 0 <= j < k < |at| ==> at[j] < at[k])
  }

  function Picked<T>(all: seq<T>, at: seq<nat>): seq<T>
    requires Ascending(at, |all|)
  {
    seq(|at|, k requires 0 <= k < |at| => all[at[k]])
  }

  // The elements of `part` occur in `all`, in the same order.
  ghost predicate Embeds<T>(part: seq<T>, all: seq<T>) {
    exists at: seq<nat> :: Ascending(at, |all|) && Picked(all, at) == part
  }

  lemma AscendingSnoc(at: seq<nat>, n: nat)
    requires Ascending(at, n)
    ensures Ascending(at, n + 1) && Ascending(at + [n], n + 1)
  {
  }

  lemma PickedSnoc<T>(all: seq<T>, at: seq<nat>, x: T)
    requires Ascending(at, |all|)
    ensures Ascending(at, |all + [x]|) && Picked(all + [x], at) == Picked(all, at)
    ensures Ascending(at + [|all|], |all + [x]|) && Picked(all + [x], at + [|all|]) == Picked(all, at) + [x]
  {
    AscendingSnoc(at, |all|);
  }

  lemma EmbedsTransitive<T>(a: seq<T>, b: seq<T>, c: seq<T>)
    requires Embeds(a, b) && Embeds(b, c)
    ensures Embeds(a, c)
  {
    var inner: seq<nat> :| Ascending(inner, |b|) && Picked(b, inner) == a;
    var outer: seq<nat> :| Ascending(outer, |c|) && Picked(c, outer) == b;
    var at: seq<nat> := seq(|inner|, k requires 0 <= k < |inner| => outer[inner[k]]);
    assert Ascending(at, |c|);
    assert Picked(c, at) == a;
  }

  lemma EmbedsSnoc<T>(a: seq<T>, b: seq<T>, x: T)
    requires Embeds(a, b)
    ensures Embeds(a, b + [x]) && Embeds(a + [x], b + [x])
  {
    var at: seq<nat> :| Ascending(at, |b|) && Picked(b, at) == a;
    PickedSnoc(b, at, x);
  }

  lemma {:induction false} EmbedsAppend<T>(a: seq<T>, b: seq<T>, c: seq<T>)
    requires Embeds(a, b)
    ensures Embeds(a + c, b + c)
    decreases |c|
  {
    if c == [] {
      assert a + c == a && b + c == b;
    } else {
      var x, rest := c[0], c[1..];
      EmbedsSnoc(a, b, x);
      EmbedsAppend(a + [x], b + [x], rest);
      assert a + c == a + [x] + rest && b + c == b + [x] + rest;
    }
  }

  function Shifted(at: seq<nat>): seq<nat> {
    seq(|at|, k requires 0 <= k < |at| => at[k] + 1)
  }

  lemma ShiftedMembers(at: seq<nat>)
    ensures forall i: nat :: i in Shifted(at) <==> i > 0 && i - 1 in at
  {
    forall i: nat | i > 0 && i - 1 in at ensures i in Shifted(at) {
      var k :| 0 <= k < |at| && at[k] == i - 1;
      assert Shifted(at)[k] == i;
    }
  }

  lemma PickedCons<T>(x: T, rest: seq<T>, at: seq<nat>)
    requires Ascending(at, |rest|)
    ensures Ascending(Shifted(at), |[x] + rest|) && Picked([x] + rest, Shifted(at)) == Picked(rest, at)
    ensures Ascending([0] + Shifted(at), |[x] + rest|)
    ensures Picked([x] + rest, [0] + Shifted(at)) == [x] + Picked(rest, at)
  {
  }
}
