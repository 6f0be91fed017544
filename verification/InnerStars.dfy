// Rules with "**" before their last segment: the loop of MultiSegmentNode is bounded by its number of children,
// so such rules are not honoured. This module proves that "**" at the end only is exactly the condition for
// "the last matching rule wins".
module InnerStars {
  import opened Wrappers
  import opened Glob
  import opened GlobExact
  import opened DecisionTree
  import RuleOrder

  // Segments as splitting a text at its slashes yields them.
  predicate SplitSegments(segs: seq<string>) {
    segs != [] && forall s :: s in segs ==> NoSlash(s)
  }

  // The law for a rule list ending in the given rule: the lookup succeeds with the last matching rule's actions.
  predicate LastWins(before: seq<Rule>, last: Rule, path: seq<string>)
    requires last.segs != [] && forall r :: r in before ==> r.segs != []
  {
    var rules := before + [last];
    var found := GetAction(Build(rules), path);
    found.Done? && found.result.actions == Verdict(rules, path)
  }

  // ---------------------------------------------------------------- a path for every pattern

  function PathFor(segs: seq<string>): seq<string> {
    if segs == [] then [] else [SegmentFor(segs[0])] + PathFor(segs[1..])
  }

  lemma {:induction false} PathForMatches(segs: seq<string>)
    requires SplitSegments(segs)
    ensures IsPath(PathFor(segs)) && Matches(segs, PathFor(segs))
  {
    var path := PathFor(segs);
    SegmentForMatches(segs[0]);
    if |segs| > 1 { PathForMatches(segs[1..]); }
    assert path[1..] == PathFor(segs[1..]);
    assert Matches(segs[1..], path[1..]);
  }

  // ---------------------------------------------------------------- branches through an inner "**" are never followed

  lemma FreshBranch(segs: seq<string>, a: Actions)
    requires |segs| > 1
    ensures Grow([], segs, a) == [NewNode(segs[0], None).(children := Grow([], segs[1..], a))]
  {
    assert Extended([], segs[0]) == [NewNode(segs[0], None)];
    assert Grow([], segs, a) == GrowChildren([NewNode(segs[0], None)], segs, a);
  }

  lemma LookupOne(t: Tree, path: seq<string>, r: ActionResult)
    ensures LookupAll([t], path, r) == Lookup(t, path, r)
  {
    assert [t][..0] == [];
  }

  lemma {:induction false} SilentBranch(segs: seq<string>, a: Actions, path: seq<string>, r: ActionResult)
    requires segs != [] && !StarsLast(segs) && path != []
    ensures |Grow([], segs, a)| == 1
    ensures var found := LookupAll(Grow([], segs, a), path, r); found.Done? && found.result.actions == r.actions
    decreases |segs|
  {
    var i :| 0 <= i < |segs| - 1 && segs[i] == "**";
    FreshBranch(segs, a);
    var t := Grow([], segs, a)[0];
    LookupOne(t, path, r);
    if |segs| > 2 { FreshBranch(segs[1..], a); }
    assert |t.children| == 1;
    if segs[0] != "**" {
      assert segs[1..][i - 1] == "**";
      if |path| > 1 { SilentBranch(segs[1..], a, path[1..], r); }
    }
  }

  lemma StarAlone(x: Actions)
    ensures Build([Rule(["**"], x)]) == [Tree(Multi, "**", Some(x), [])]
  {
    RuleOrder.BuildSnoc([], Rule(["**"], x));
    assert [] + [Rule(["**"], x)] == [Rule(["**"], x)];
    assert Without(EMPTY_GRAPH, "**") == [] by { assert EMPTY_GRAPH[..0] == []; }
  }

  // The graph of a plain "**" rule and a rule with an inner "**" behind it.
  function StarGraph(segs: seq<string>, x: Actions, a: Actions): seq<Tree>
    requires |segs| > 1
  {
    if segs[0] == "**" then [Tree(Multi, "**", Some(x), Grow([], segs[1..], a))]
    else [Tree(Multi, "**", Some(x), [])] + Grow([], segs, a)
  }

  lemma StarGraphBuilt(segs: seq<string>, x: Actions, a: Actions)
    requires |segs| > 1
    ensures Build([Rule(["**"], x), Rule(segs, a)]) == StarGraph(segs, x, a)
  {
    var rules := [Rule(["**"], x), Rule(segs, a)];
    var star := Tree(Multi, "**", Some(x), []);
    StarAlone(x);
    RuleOrder.BuildSnoc(rules[..1], rules[1]);
    assert rules == rules[..1] + [rules[1]] && rules[..1] == [rules[0]];
    if segs[0] == "**" {
      assert Extended([star], "**") == [star];
      assert Build(rules) == [GrowChild(star, segs, a)];
    } else {
      assert Extended([star], segs[0]) == [star] + Extended([], segs[0]);
      assert Build(rules) == [star] + Grow([], segs, a);
    }
  }

  // After a plain "**" rule, a rule with an inner "**" has no effect on any path.
  lemma InnerStarIgnored(segs: seq<string>, x: Actions, a: Actions, path: seq<string>)
    requires segs != [] && !StarsLast(segs) && path != []
    ensures var found := GetAction(Build([Rule(["**"], x), Rule(segs, a)]), path);
            found.Done? && found.result.actions == x
  {
    StarGraphBuilt(segs, x, a);
    var graph := StarGraph(segs, x, a);
    if segs[0] == "**" {
      if |segs| > 2 { FreshBranch(segs[1..], a); }
      LookupOne(graph[0], path, FALLBACK);
    } else {
      var branch := Grow([], segs, a);
      SilentBranch(segs, a, path, FALLBACK.(actions := x));
      assert graph[..1] == [graph[0]] && branch == [graph[1]];
      LookupOne(graph[0], path, FALLBACK);
      LookupOne(graph[1], path, FALLBACK.(actions := x));
    }
  }

  // A rule is honoured behind every plain rule list, for every path and every actions, exactly when "**" stands
  // in it at the end only.
  lemma StarsLastExact(segs: seq<string>)
    requires SplitSegments(segs)
    ensures StarsLast(segs) <==>
            forall before, a, path :: Plain(before) && IsPath(path) ==> LastWins(before, Rule(segs, a), path)
  {
    if StarsLast(segs) {
      forall before, a, path | Plain(before) && IsPath(path) ensures LastWins(before, Rule(segs, a), path) {
        RuleOrder.LastRuleWins(before + [Rule(segs, a)], path);
      }
    } else {
      var path, before := PathFor(segs), [Rule(["**"], Actions(Delete, Keep))];
      var a := Actions(Keep, Delete);
      PathForMatches(segs);
      InnerStarIgnored(segs, before[0].actions, a, path);
      assert before + [Rule(segs, a)] == [before[0], Rule(segs, a)];
      assert Plain(before) && IsPath(path) && !LastWins(before, Rule(segs, a), path);
    }
  }
}
