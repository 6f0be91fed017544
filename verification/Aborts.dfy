// Which rule files make lookups abort: those that give a "**" node three children.
module Aborts {
  import opened Wrappers
  import opened Glob
  import opened GlobExact
  import opened DecisionTree
  import InnerStars
  import RuleOrder

  // A chain of single-segment nodes leads to a "**" node with at least three children.
  predicate Runaway(t: Tree)
    decreases t, 0
  {
    if t.kind.Multi? then |t.children| >= 3 else RunawayAny(t.children)
  }

  predicate RunawayAny(ts: seq<Tree>)
    decreases ts, 1
  {
    exists i :: 0 <= i < |ts| && Runaway(ts[i])
  }

  // ---------------------------------------------------------------- without such a node nothing aborts

  lemma {:induction false} LookupEnds(t: Tree, path: seq<string>, r: ActionResult)
    requires !Runaway(t) && path != []
    ensures Lookup(t, path, r).Done?
    decreases t, 0
  {
    if t.kind.Single? && |path| > 1 { LookupAllEnds(t.children, path[1..], r.(actions := t.actions.GetOr(r.actions))); }
  }

  lemma {:induction false} LookupAllEnds(ts: seq<Tree>, path: seq<string>, r: ActionResult)
    requires !RunawayAny(ts) && path != []
    ensures LookupAll(ts, path, r).Done?
    decreases ts, 1
  {
    if ts != [] {
      var init := ts[..|ts| - 1];
      assert forall i :: 0 <= i < |init| ==> init[i] == ts[i];
      LookupAllEnds(init, path, r);
      LookupEnds(ts[|ts| - 1], path, LookupAll(init, path, r).result);
    }
  }

  // ---------------------------------------------------------------- which paths a "**" node aborts

  // A "**" node with a single-segment node among its children, and no such chain below them, aborts the lookup of
  // a path exactly when it has at least two children more than the path has segments.
  lemma MultiAborts(t: Tree, k: nat, path: seq<string>, r: ActionResult)
    requires t.kind.Multi? && !RunawayAny(t.children) && k < |t.children| && t.children[k].kind.Single? && path != []
    ensures Lookup(t, path, r) == Panic <==> |path| <= |t.children| - 2
  {
    var r1 := r.(actions := t.actions.GetOr(r.actions));
    OffsetsAbort(t.children, k, path, |t.children| - 1, r1.(descend := r1.descend || |path| == 1));
  }

  lemma {:induction false} EmptyPathAborts(ts: seq<Tree>, k: nat, r: ActionResult)
    requires k < |ts| && ts[k].kind.Single?
    ensures LookupAll(ts, [], r) == Panic
  {
    if k < |ts| - 1 { EmptyPathAborts(ts[..|ts| - 1], k, r); }
  }

  lemma {:induction false} OffsetsAbort(ts: seq<Tree>, k: nat, path: seq<string>, end: nat, r: ActionResult)
    requires k < |ts| && ts[k].kind.Single? && path != []
    ensures end > |path| ==> LookupOffsets(ts, path, end, r) == Panic
    ensures end <= |path| && !RunawayAny(ts) ==> LookupOffsets(ts, path, end, r).Done?
    decreases end
  {
    if end > 1 {
      OffsetsAbort(ts, k, path, end - 1, r);
      var before := LookupOffsets(ts, path, end - 1, r);
      if before.Done? && end - 1 == |path| {
        assert path[end - 1..] == [];
        EmptyPathAborts(ts, k, before.result);
      } else if before.Done? && end - 1 < |path| && !RunawayAny(ts) {
        LookupAllEnds(ts, path[end - 1..], before.result);
      }
    }
  }

  // ---------------------------------------------------------------- what every graph built from rules looks like

  // Nodes are single-segment nodes unless their pattern is "**", and of two or more children not all are "**".
  predicate Regular(t: Tree)
    decreases t, 0
  {
    (t.kind.Multi? ==> t.pattern == "**") && NoSlash(t.pattern) && RegularAll(t.children) && Varied(t.children)
  }

  predicate RegularAll(ts: seq<Tree>)
    decreases ts, 1
  {
    forall i :: 0 <= i < |ts| ==> Regular(ts[i])
  }

  predicate Varied(ts: seq<Tree>) {
    |ts| < 2 || exists i :: 0 <= i < |ts| && ts[i].pattern != "**"
  }

  lemma {:induction false} WithoutRegular(ts: seq<Tree>, s: string)
    requires RegularAll(ts)
    ensures RegularAll(Without(ts, s)) && forall t :: t in Without(ts, s) ==> t.pattern != s
  {
    if ts != [] { WithoutRegular(ts[..|ts| - 1], s); }
  }

  lemma ExtendedRegular(ts: seq<Tree>, s: string)
    requires RegularAll(ts) && Varied(ts) && NoSlash(s)
    ensures RegularAll(Extended(ts, s)) && Varied(Extended(ts, s))
  {
    var all := Extended(ts, s);
    if all != ts && s == "**" && ts != [] { assert all[|ts| - 1].pattern != "**"; }
    if all != ts && s != "**" { assert all[|ts|].pattern != "**"; }
  }

  lemma LeafRegular(ts: seq<Tree>, s: string, a: Actions)
    requires RegularAll(ts) && NoSlash(s)
    ensures RegularAll(Without(ts, s) + [NewNode(s, Some(a))]) && Varied(Without(ts, s) + [NewNode(s, Some(a))])
  {
    WithoutRegular(ts, s);
    var kept := Without(ts, s);
    var all := kept + [NewNode(s, Some(a))];
    if s != "**" {
      assert all[|kept|].pattern != "**";
    } else if kept != [] {
      assert all[0] == kept[0] && kept[0] in kept;
    }
  }

  lemma {:induction false} GrowRegular(ts: seq<Tree>, segs: seq<string>, a: Actions)
    requires RegularAll(ts) && Varied(ts) && InnerStars.SplitSegments(segs)
    ensures RegularAll(Grow(ts, segs, a)) && Varied(Grow(ts, segs, a))
    decreases |segs|
  {
    if |segs| == 1 {
      LeafRegular(ts, segs[0], a);
    } else {
      ExtendedRegular(ts, segs[0]);
      assert forall s :: s in segs[1..] ==> s in segs;
      var all := Extended(ts, segs[0]);
      var grown := GrowChildren(all, segs, a);
      assert Grow(ts, segs, a) == grown;
      forall i | 0 <= i < |all| ensures Regular(grown[i]) && grown[i].pattern == all[i].pattern {
        assert grown[i] == GrowChild(all[i], segs, a) && Regular(all[i]);
        if all[i].pattern == segs[0] { GrowRegular(all[i].children, segs[1..], a); }
      }
    }
  }

  lemma {:induction false} BuildRegular(rules: seq<Rule>)
    requires forall r :: r in rules ==> r.segs != [] && InnerStars.SplitSegments(r.segs)
    ensures RegularAll(Build(rules)) && Varied(Build(rules))
  {
    if rules != [] {
      var init, last := rules[..|rules| - 1], rules[|rules| - 1];
      assert last in rules;
      BuildRegular(init);
      GrowRegular(Build(init), last.segs, last.actions);
    }
  }

  // ---------------------------------------------------------------- exactly

  lemma {:induction false} OneAborts(ts: seq<Tree>, i: nat, path: seq<string>, r: ActionResult)
    requires i < |ts| && forall r1 :: Lookup(ts[i], path, r1) == Panic
    ensures LookupAll(ts, path, r) == Panic
  {
    if i < |ts| - 1 { OneAborts(ts[..|ts| - 1], i, path, r); }
  }

  // Such a chain aborts the path of segments matched along it, and one more.
  lemma {:induction false} RunawayAborts(t: Tree) returns (path: seq<string>)
    requires Runaway(t) && Regular(t)
    ensures IsPath(path) && forall r :: Lookup(t, path, r) == Panic
    decreases t
  {
    if t.kind.Multi? {
      var k :| 0 <= k < |t.children| && t.children[k].pattern != "**";
      assert Regular(t.children[k]);
      path := ["x"];
      forall r ensures Lookup(t, path, r) == Panic {
        var r1 := r.(actions := t.actions.GetOr(r.actions));
        OffsetsAbort(t.children, k, path, |t.children| - 1, r1.(descend := r1.descend || |path| == 1));
      }
    } else {
      var i :| 0 <= i < |t.children| && Runaway(t.children[i]);
      assert Regular(t.children[i]);
      var below := RunawayAborts(t.children[i]);
      SegmentForMatches(t.pattern);
      path := [SegmentFor(t.pattern)] + below;
      assert path[1..] == below;
      forall r ensures Lookup(t, path, r) == Panic {
        OneAborts(t.children, i, below, r.(actions := t.actions.GetOr(r.actions)));
      }
    }
  }

  // Some path aborts the lookup if and only if the rules give a "**" node that a chain of single-segment nodes
  // leads to three children.
  lemma AbortsExactly(rules: seq<Rule>)
    requires forall r :: r in rules ==> r.segs != [] && InnerStars.SplitSegments(r.segs)
    ensures (exists path :: IsPath(path) && GetAction(Build(rules), path) == Panic) <==> RunawayAny(Build(rules))
  {
    var graph := Build(rules);
    if RunawayAny(graph) {
      var i :| 0 <= i < |graph| && Runaway(graph[i]);
      BuildRegular(rules);
      var path := RunawayAborts(graph[i]);
      OneAborts(graph, i, path, FALLBACK);
    } else {
      forall path | IsPath(path) ensures GetAction(graph, path).Done? { LookupAllEnds(graph, path, FALLBACK); }
    }
  }

  // ---------------------------------------------------------------- a family of such files

  lemma {:induction false} WithoutAbsent(ts: seq<Tree>, s: string)
    requires forall i :: 0 <= i < |ts| ==> ts[i].pattern != s
    ensures Without(ts, s) == ts
  {
    if ts != [] {
      WithoutAbsent(ts[..|ts| - 1], s);
      Snoc(ts);
    }
  }

  lemma AddBelowStar(star: Tree, s: string, x: Actions)
    requires star.pattern == "**" && Without(star.children, s) == star.children
    ensures Grow([star], ["**", s], x) == [star.(children := star.children + [NewNode(s, Some(x))])]
  {
    assert Extended([star], "**") == [star] && ["**", s][1..] == [s];
    assert Grow([star], ["**", s], x) == [GrowChild(star, ["**", s], x)];
  }

  // A further rule "**/s" hangs one more child under the only node.
  lemma OneMoreChild(rules: seq<Rule>, star: Tree, s: string, x: Actions)
    requires (forall r :: r in rules ==> r.segs != []) && Build(rules) == [star] && star.pattern == "**"
    requires forall i :: 0 <= i < |star.children| ==> star.children[i].pattern != s
    ensures Build(rules + [Rule(["**", s], x)]) == [star.(children := star.children + [NewNode(s, Some(x))])]
  {
    RuleOrder.BuildSnoc(rules, Rule(["**", s], x));
    WithoutAbsent(star.children, s);
    AddBelowStar(star, s, x);
  }

  // A plain "**" rule, and behind it "**/s" for each of the names.
  function StarRules(names: seq<string>, x: Actions): (rules: seq<Rule>)
    ensures forall r :: r in rules ==> r.segs != []
  {
    if names == [] then [Rule(["**"], x)]
    else StarRules(names[..|names| - 1], x) + [Rule(["**", names[|names| - 1]], x)]
  }

  function Leaves(names: seq<string>, x: Actions): seq<Tree> {
    seq(|names|, i requires 0 <= i < |names| => NewNode(names[i], Some(x)))
  }

  lemma LeavesSnoc(init: seq<string>, last: string, x: Actions)
    ensures Leaves(init + [last], x) == Leaves(init, x) + [NewNode(last, Some(x))]
    ensures last !in init ==> forall i :: 0 <= i < |init| ==> Leaves(init, x)[i].pattern != last
  {
  }

  predicate Distinct(names: seq<string>) {
    (forall i, j :: 0 <= i < j < |names| ==> names[i] != names[j]) && "**" !in names
  }

  lemma {:induction false} StarRulesBuild(names: seq<string>, x: Actions)
    requires Distinct(names)
    ensures Build(StarRules(names, x)) == [Tree(Multi, "**", Some(x), Leaves(names, x))]
  {
    if names == [] {
      InnerStars.StarAlone(x);
      assert Leaves(names, x) == [];
    } else {
      var init, last := names[..|names| - 1], names[|names| - 1];
      StarRulesBuild(init, x);
      LeavesSnoc(init, last, x);
      Snoc(names);
      OneMoreChild(StarRules(init, x), Tree(Multi, "**", Some(x), Leaves(init, x)), last, x);
    }
  }

  // Such rules abort the lookup of every path that has at least two segments fewer than there are names.
  lemma InnerStarAborts(names: seq<string>, x: Actions, path: seq<string>)
    requires (forall i, j :: 0 <= i < j < |names| ==> names[i] != names[j]) && "**" !in names
    requires names != [] && path != []
    ensures GetAction(Build(StarRules(names, x)), path) == Panic <==> |path| <= |names| - 2
  {
    var star := Tree(Multi, "**", Some(x), Leaves(names, x));
    StarRulesBuild(names, x);
    assert forall i :: 0 <= i < |names| ==> names[i] != "**";
    assert forall i :: 0 <= i < |names| ==> !Runaway(Leaves(names, x)[i]);
    MultiAborts(star, 0, path, FALLBACK);
    InnerStars.LookupOne(star, path, FALLBACK);
  }
}
