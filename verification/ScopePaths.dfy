/**
 The scope algebra of learned exclusions. Three pieces of code decide what "a
 path within a scope" means: the analyzer's `_within_scope`, the common scope it
 proposes, and the control rules rendered from that scope.
 */
module ScopePaths {
  import opened Wrappers
  import opened Segments

  /** "/api" covers "/api" and "/api/x" but not "/apiv2"; "/api/" covers what is under it. */
  predicate WithinScope(path: string, scope: string) {
    if scope != "" && scope[|scope| - 1] == '/' then scope <= path
    else path == scope || scope + "/" <= path
  }

  predicate SlashLed(path: string) {
    path != "" && path[0] == '/'
  }

  lemma WithinIsTransitive(path: string, middle: string, scope: string)
    requires WithinScope(path, middle) && WithinScope(middle, scope)
    ensures WithinScope(path, scope)
  {
    assert middle <= path;
    if scope + "/" <= middle {
      assert path[..|scope| + 1] == middle[..|scope| + 1];
    }
  }

  lemma WithinIsAntisymmetric(a: string, b: string)
    requires WithinScope(a, b) && WithinScope(b, a)
    ensures a == b
  {
    assert a <= b && b <= a;
  }

  predicate CoversAll(paths: set<string>, scope: string) {
    forall p :: p in paths ==> WithinScope(p, scope)
  }

  /** `scope` covers every path, and every scope that does covers all that `scope` covers. */
  ghost predicate Narrowest(paths: set<string>, scope: string) {
    && CoversAll(paths, scope)
    && forall other: string | CoversAll(paths, other) :: forall q: string :: WithinScope(q, scope) ==> WithinScope(q, other)
  }

  lemma NarrowestIsUnique(paths: set<string>, a: string, b: string)
    requires Narrowest(paths, a) && Narrowest(paths, b)
    ensures a == b
  {
    assert WithinScope(a, a) && WithinScope(b, b);
    WithinIsAntisymmetric(a, b);
  }

  function Concrete(paths: set<Option<string>>): set<string> {
    set p | p in paths && p.Some? :: p.value
  }

  /** What the analyzer proposes for the paths of a group: no scope, or the narrowest one. */
  ghost predicate ProposedScope(paths: set<Option<string>>, scope: Option<string>) {
    if None in paths || paths == {} then scope.None?
    else scope.Some? && Narrowest(Concrete(paths), scope.value)
  }

  lemma ProposedScopeIsUnique(paths: set<Option<string>>, a: Option<string>, b: Option<string>)
    requires ProposedScope(paths, a) && ProposedScope(paths, b)
    ensures a == b
  {
    if a.Some? && b.Some? {
      NarrowestIsUnique(Concrete(paths), a.value, b.value);
    }
  }

  // ---------------------------------------------------------------------
  // common_scope_path

  ghost predicate CommonTo(paths: set<string>, common: seq<string>) {
    forall p :: p in paths ==> common <= Split(p)
  }

  /** The segments stop agreeing at this depth although every path goes on. */
  ghost predicate PartsAt(paths: set<string>, depth: nat) {
    && (forall p :: p in paths ==> depth < |Split(p)|)
    && exists p, q :: p in paths && q in paths && Split(p)[depth] != Split(q)[depth]
  }

  lemma OnePathHeadsAll(paths: set<string>, head: string)
    requires head in paths && CommonTo(paths, Split(head))
    ensures Narrowest(paths, head)
  {
    forall p | p in paths ensures WithinScope(p, head) {
      if Split(p) == Split(head) {
        JoinOfSplit(p);
        JoinOfSplit(head);
      } else {
        BelowIsSegmentPrefix(p, head);
      }
    }
    forall other: string | CoversAll(paths, other)
      ensures forall q :: WithinScope(q, head) ==> WithinScope(q, other)
    {
      forall q: string | WithinScope(q, head) ensures WithinScope(q, other) {
        WithinIsTransitive(q, head, other);
      }
    }
  }

  /** A scope as the path x it is, or ends in a slash after. */
  function Stem(scope: string): string {
    if scope != "" && scope[|scope| - 1] == '/' then scope[..|scope| - 1] else scope
  }

  lemma PathsPart(paths: set<string>, common: seq<string>)
    requires common != [] && CommonTo(paths, common) && PartsAt(paths, |common|)
    ensures Join(common) !in paths
    ensures Narrowest(paths, Join(common) + "/")
  {
    var prefix := Join(common);
    var p0 :| p0 in paths;
    JoinOfSplit(p0);
    assert SlashFree(common) by {
      forall i | 0 <= i < |common| ensures '/' !in common[i] {
        assert common[i] == Split(p0)[i];
      }
    }
    SplitOfJoin(common);
    forall p | p in paths ensures prefix + "/" <= p {
      BelowIsSegmentPrefix(p, prefix);
    }
    forall other: string | CoversAll(paths, other)
      ensures forall q :: WithinScope(q, prefix + "/") ==> WithinScope(q, other)
    {
      CoveringScopeIsHigher(paths, common, other);
      forall q: string | WithinScope(q, prefix + "/") ensures WithinScope(q, other) {
        WithinIsTransitive(q, prefix + "/", other);
      }
    }
  }

  lemma WithinHasStemSegments(path: string, scope: string)
    requires WithinScope(path, scope)
    ensures Split(Stem(scope)) <= Split(path)
  {
    var x := Stem(scope);
    BelowIsSegmentPrefix(path, x);
    if scope != x {
      assert scope == x + "/";
    }
  }

  lemma BelowStemIsWithin(path: string, scope: string)
    requires Stem(scope) + "/" <= path
    ensures WithinScope(path, scope)
  {
    if scope != Stem(scope) {
      assert scope == Stem(scope) + "/";
    }
  }

  lemma CoveringScopeIsHigher(paths: set<string>, common: seq<string>, other: string)
    requires common != [] && CommonTo(paths, common) && PartsAt(paths, |common|)
    requires Split(Join(common)) == common
    requires CoversAll(paths, other)
    ensures WithinScope(Join(common) + "/", other)
  {
    var x := Stem(other);
    var depth := |common|;
    var p, q :| p in paths && q in paths && Split(p)[depth] != Split(q)[depth];
    WithinHasStemSegments(p, other);
    WithinHasStemSegments(q, other);
    PrefixesNest(Split(x), common, Split(p));
    if Split(x) == common {
      JoinOfSplit(x);
    } else {
      BelowIsSegmentPrefix(Join(common), x);
      assert x + "/" <= Join(common) + "/";
    }
    BelowStemIsWithin(Join(common) + "/", other);
  }

  lemma PrefixesNest(short: seq<string>, long: seq<string>, whole: seq<string>)
    requires short <= whole && long <= whole && |short| <= |long|
    ensures short <= long
  {
    assert short == whole[..|short|] && long == whole[..|long|];
  }

  lemma SlashLedStart(paths: set<string>)
    requires forall p :: p in paths ==> SlashLed(p)
    ensures forall p :: p in paths ==> Split(p)[0] == ""
  {
  }

  /** The elements of a set in some order; the result below does not depend on which. */
  method Listed(paths: set<string>) returns (list: seq<string>)
    ensures forall p :: p in list <==> p in paths
    ensures |list| == |paths|
  {
    list := [];
    var left := paths;
    while left != {}
      invariant left <= paths
      invariant forall p :: p in paths <==> p in left || p in list
      invariant |list| + |left| == |paths|
      decreases left
    {
      var p :| p in left;
      list := list + [p];
      left := left - {p};
    }
  }

  /** What these segments join to, or what is under it, is the narrowest scope. */
  ghost predicate Settled(paths: set<string>, common: seq<string>) {
    Narrowest(paths, if Join(common) in paths then Join(common) else Join(common) + "/")
  }

  lemma PathEnds(paths: set<string>, common: seq<string>, p: string)
    requires CommonTo(paths, common) && p in paths && |Split(p)| <= |common|
    ensures Settled(paths, common)
  {
    assert Split(p) == common;
    JoinOfSplit(p);
    OnePathHeadsAll(paths, p);
  }

  lemma SegmentsPart(paths: set<string>, common: seq<string>, p: string, q: string)
    requires CommonTo(paths, common) && forall x :: x in paths ==> SlashLed(x) && |common| < |Split(x)|
    requires p in paths && q in paths && Split(p)[|common|] != Split(q)[|common|]
    ensures Settled(paths, common)
  {
    SlashLedStart(paths);
    PathsPart(paths, common);
  }

  lemma OneFurther(paths: set<string>, common: seq<string>, segment: string)
    requires CommonTo(paths, common)
    requires forall p :: p in paths ==> |common| < |Split(p)| && Split(p)[|common|] == segment
    ensures CommonTo(paths, common + [segment])
  {
    hide Split;
  }

  lemma {:induction false} SettledSegmentsFrom(paths: set<string>, common: seq<string>, p: string) returns (settled: seq<string>)
    requires CommonTo(paths, common) && p in paths && forall x :: x in paths ==> SlashLed(x)
    ensures Settled(paths, settled)
    decreases |Split(p)| - |common|
  {
    hide Settled, Split, SlashLed;
    if x :| x in paths && |Split(x)| <= |common| {
      PathEnds(paths, common, x);
      settled := common;
    } else if x :| x in paths && Split(x)[|common|] != Split(p)[|common|] {
      SegmentsPart(paths, common, x, p);
      settled := common;
    } else {
      OneFurther(paths, common, Split(p)[|common|]);
      settled := SettledSegmentsFrom(paths, common + [Split(p)[|common|]], p);
    }
  }

  /** Every group of paths has something to propose: a scope, or none. */
  lemma SomethingIsProposed(paths: set<Option<string>>) returns (scope: Option<string>)
    requires forall p :: Some(p) in paths ==> SlashLed(p)
    ensures ProposedScope(paths, scope)
  {
    if None in paths || paths == {} {
      scope := None;
    } else {
      var concrete := Concrete(paths);
      var o :| o in paths;
      assert o.value in concrete;
      var common := SettledSegmentsFrom(concrete, [], o.value);
      scope := Some(if Join(common) in concrete then Join(common) else Join(common) + "/");
    }
  }

  method CommonSegments(concrete: seq<string>, ghost all: set<string>) returns (common: seq<string>)
    requires concrete != [] && forall p :: p in all <==> p in concrete
    requires forall p :: p in all ==> SlashLed(p)
    ensures Settled(all, common)
  {
    hide Split, Settled, SlashLed;
    var split := seq(|concrete|, i requires 0 <= i < |concrete| => Split(concrete[i]));
    assert forall i :: 0 <= i < |split| ==> concrete[i] in all;
    common := [];
    while true
      invariant CommonTo(all, common)
      decreases |split[0]| - |common|
    {
      var depth := |common|;
      if i :| 0 <= i < |split| && |split[i]| <= depth {
        PathEnds(all, common, concrete[i]);
        return;
      }
      forall p | p in all ensures depth < |Split(p)| {
        var i :| 0 <= i < |concrete| && concrete[i] == p;
        assert depth < |split[i]|;
      }
      if i :| 0 <= i < |split| && split[i][depth] != split[0][depth] {
        SegmentsPart(all, common, concrete[i], concrete[0]);
        return;
      }
      forall p | p in all ensures Split(p)[depth] == split[0][depth] {
        var i :| 0 <= i < |concrete| && concrete[i] == p;
        assert split[i][depth] == split[0][depth];
      }
      OneFurther(all, common, split[0][depth]);
      common := common + [split[0][depth]];
    }
  }

  method CommonScopePath(paths: set<Option<string>>) returns (scope: Option<string>)
    requires forall p :: Some(p) in paths ==> SlashLed(p)
    ensures ProposedScope(paths, scope)
  {
    if None in paths || paths == {} {
      return None;
    }
    hide Narrowest, Join, SlashLed;
    ghost var all := Concrete(paths);
    var concrete := Listed(Concrete(paths));
    assert concrete != [] by {
      var o :| o in paths;
      assert o.value in all;
    }
    if |concrete| == 1 {
      assert all == {concrete[0]} by {
        assert concrete == [concrete[0]];
      }
      OnePathHeadsAll(all, concrete[0]);
      return Some(concrete[0]);
    }
    var common := CommonSegments(concrete, all);
    var prefix := Join(common);
    if prefix in concrete {
      return Some(prefix);
    }
    assert prefix == "" ==> prefix + "/" == "/";
    scope := Some(if prefix != "" then prefix + "/" else "/");
  }
}
