/**
 Networks as prefixes of address bits, and collapsing an ascending list of them
 into maximal aligned blocks.
 */
module Networks {

  type Bits = seq<bool>

  /** p lies entirely below q: where they first differ, p has 0 and q has 1. */
  ghost predicate Below(p: Bits, q: Bits) {
    exists d: nat :: DiffersFirstAt(p, q, d) && !p[d] && q[d]
  }

  predicate DiffersFirstAt(p: Bits, q: Bits, d: nat) {
    && d < |p| && d < |q| && p[d] != q[d]
    && forall i :: 0 <= i < d ==> p[i] == q[i]
  }

  predicate Siblings(p: Bits, q: Bits) {
    && |p| == |q| > 0 && DiffersFirstAt(p, q, |p| - 1) && !p[|p| - 1]
  }

  function Parent(p: Bits): Bits
    requires p != []
  {
    p[..|p| - 1]
  }

  ghost predicate Ascending(ps: seq<Bits>) {
    forall i, j :: 0 <= i < j < |ps| ==> Below(ps[i], ps[j])
  }

  ghost predicate NeighboursAreNotSiblings(ps: seq<Bits>) {
    forall i :: 0 <= i < |ps| - 1 ==> !Siblings(ps[i], ps[i + 1])
  }

  ghost predicate Covers(ps: seq<Bits>, a: Bits) {
    exists i :: 0 <= i < |ps| && ps[i] <= a
  }

  ghost predicate AllBelow(ps: seq<Bits>, q: Bits) {
    forall i :: 0 <= i < |ps| ==> Below(ps[i], q)
  }

  ghost predicate AllAbove(ps: seq<Bits>, q: Bits) {
    forall i :: 0 <= i < |ps| ==> Below(q, ps[i])
  }

  /** Every network fits into addresses of this many bits. */
  ghost predicate Fit(ps: seq<Bits>, width: nat) {
    forall i :: 0 <= i < |ps| ==> |ps[i]| <= width
  }

  /** The same addresses, no wider neighbourhood: `out` may stand where `run` stood. */
  ghost predicate Replaces(out: seq<Bits>, run: seq<Bits>, width: nat) {
    && Fit(out, width)
    && (forall a: Bits | |a| == width :: Covers(out, a) <==> Covers(run, a))
    && (forall q: Bits | AllBelow(run, q) :: AllBelow(out, q))
    && (forall q: Bits | AllAbove(run, q) :: AllAbove(out, q))
  }

  lemma BelowExcludesPrefix(p: Bits, q: Bits, a: Bits)
    requires Below(p, q) && p <= a
    ensures !(q <= a)
  {
    var d: nat :| DiffersFirstAt(p, q, d) && !p[d] && q[d];
    assert a[d] == p[d];
  }

  lemma NothingBetweenSiblings(p: Bits, between: Bits, q: Bits)
    requires Siblings(p, q)
    ensures !(Below(p, between) && Below(between, q))
  {
    forall d: nat, e: nat | DiffersFirstAt(p, between, d) && DiffersFirstAt(between, q, e)
      ensures !(!p[d] && between[d] && !between[e] && q[e])
    {
      assert e < |p| - 1 ==> p[e] == q[e];
      assert d < |p| - 1 ==> p[d] == q[d];
    }
  }

  lemma ParentStandsForSiblings(p: Bits, q: Bits, r: Bits)
    requires Siblings(p, q)
    ensures Below(q, r) ==> Below(Parent(p), r)
    ensures Below(r, p) ==> Below(r, Parent(p))
  {
    if Below(q, r) {
      var d: nat :| DiffersFirstAt(q, r, d) && !q[d] && r[d];
      assert DiffersFirstAt(Parent(p), r, d);
    }
    if Below(r, p) {
      var d: nat :| DiffersFirstAt(r, p, d) && !r[d] && p[d];
      assert DiffersFirstAt(r, Parent(p), d);
    }
  }

  lemma ParentCoversBoth(p: Bits, q: Bits, a: Bits)
    requires Siblings(p, q) && |a| >= |p|
    ensures Parent(p) <= a <==> p <= a || q <= a
  {
    var last := |p| - 1;
    if Parent(p) <= a {
      var mine := if a[last] then q else p;
      forall i | 0 <= i < |mine| ensures mine[i] == a[i] {
        assert i < last ==> mine[i] == p[i] == Parent(p)[i];
      }
    }
    assert q <= a ==> forall i :: 0 <= i < last ==> a[i] == q[i] == p[i] == Parent(p)[i];
  }

  lemma MergeTop(stack: seq<Bits>, x: Bits, run: seq<Bits>, width: nat)
    requires stack != [] && Siblings(stack[|stack| - 1], x)
    requires Ascending(stack + [x]) && Replaces(stack + [x], run, width)
    ensures
      var merged := stack[..|stack| - 1] + [Parent(x)];
      Ascending(merged) && Replaces(merged, run, width)
  {
    var last := |stack| - 1;
    var top := stack[last];
    var merged := stack[..last] + [Parent(x)];
    var before := stack + [x];
    assert before[last] == top && before[last + 1] == x;
    assert Parent(x) == Parent(top);
    assert |before[last]| <= width;
    assert forall i :: 0 <= i < last ==> merged[i] == before[i];
    forall i | 0 <= i < last ensures Below(merged[i], merged[last]) {
      assert Below(before[i], before[last]);
      ParentStandsForSiblings(top, x, stack[i]);
    }
    forall i, j | 0 <= i < j < |merged| ensures Below(merged[i], merged[j]) {
      if j < last {
        assert Below(before[i], before[j]);
      }
    }
    forall a: Bits | |a| == width ensures Covers(merged, a) <==> Covers(before, a) {
      ParentCoversBoth(top, x, a);
      if Covers(before, a) {
        var i :| 0 <= i < |before| && before[i] <= a;
        assert merged[if i < last then i else last] <= a;
      }
      if Covers(merged, a) {
        var i :| 0 <= i < |merged| && merged[i] <= a;
        assert if i < last then before[i] <= a else before[last] <= a || before[last + 1] <= a;
      }
    }
    forall q: Bits | AllBelow(run, q) ensures AllBelow(merged, q) {
      assert AllBelow(before, q);
      assert Below(before[last + 1], q);
      ParentStandsForSiblings(top, x, q);
      assert forall i :: 0 <= i < last ==> merged[i] == before[i];
    }
    forall q: Bits | AllAbove(run, q) ensures AllAbove(merged, q) {
      assert AllAbove(before, q);
      assert Below(q, before[last]);
      ParentStandsForSiblings(top, x, q);
      assert forall i :: 0 <= i < last ==> merged[i] == before[i];
    }
  }

  lemma ReplacesExtended(out: seq<Bits>, run: seq<Bits>, x: Bits, width: nat)
    requires Replaces(out, run, width) && |x| <= width && Ascending(out) && AllBelow(run, x)
    ensures Ascending(out + [x]) && Replaces(out + [x], run + [x], width)
  {
    assert AllBelow(out, x);
    forall a: Bits | |a| == width ensures Covers(out + [x], a) <==> Covers(run + [x], a) {
      CoversAppended(out, x, a);
      CoversAppended(run, x, a);
    }
    forall q: Bits | AllBelow(run + [x], q) ensures AllBelow(out + [x], q) {
      assert Below((run + [x])[|run|], q);
      assert forall i :: 0 <= i < |run| ==> run[i] == (run + [x])[i];
      assert AllBelow(out, q);
    }
    forall q: Bits | AllAbove(run + [x], q) ensures AllAbove(out + [x], q) {
      assert Below(q, (run + [x])[|run|]);
      assert forall i :: 0 <= i < |run| ==> run[i] == (run + [x])[i];
      assert AllAbove(out, q);
    }
  }

  lemma CoversAppended(ps: seq<Bits>, x: Bits, a: Bits)
    ensures Covers(ps + [x], a) <==> Covers(ps, a) || x <= a
  {
    var more := ps + [x];
    if Covers(ps, a) {
      var i :| 0 <= i < |ps| && ps[i] <= a;
      assert more[i] <= a;
    }
    assert more[|ps|] == x;
  }

  /**
   The contract of `ipaddress.collapse_addresses` on an ascending run: siblings
   are merged into their parent until none are left.
   */
  method CollapseAddresses(run: seq<Bits>, width: nat) returns (blocks: seq<Bits>)
    requires Ascending(run) && Fit(run, width)
    ensures Replaces(blocks, run, width)
    ensures Ascending(blocks) && NeighboursAreNotSiblings(blocks)
    ensures run != [] ==> blocks != []
  {
    blocks := [];
    for k := 0 to |run|
      invariant Ascending(blocks) && NeighboursAreNotSiblings(blocks)
      invariant Replaces(blocks, run[..k], width)
      invariant k > 0 ==> blocks != []
    {
      var x := run[k];
      assert AllBelow(run[..k], x);
      ReplacesExtended(blocks, run[..k], x, width);
      assert run[..k] + [x] == run[..k + 1];
      while blocks != [] && Siblings(blocks[|blocks| - 1], x)
        invariant Ascending(blocks + [x]) && NeighboursAreNotSiblings(blocks)
        invariant Replaces(blocks + [x], run[..k + 1], width)
        decreases |blocks|
      {
        MergeTop(blocks, x, run[..k + 1], width);
        blocks, x := blocks[..|blocks| - 1], Parent(x);
      }
      blocks := blocks + [x];
    }
    assert run[..|run|] == run;
  }
}
