// The rule graph agrees with the ordered rule list: "each rule overrules its predecessors", what `descend`
// means, and for which rules this holds.
module RuleOrder {
  import opened Wrappers
  import opened Glob
  import opened DecisionTree

  // ---------------------------------------------------------------- one added rule, seen through the walk

  lemma {:induction false} WithoutProperties(ts: seq<Tree>, s: string)
    requires ShapedAll(ts)
    ensures ShapedAll(Without(ts, s))
    ensures forall path :: path != [] && s != "**" && !SegMatches(s, path[0]) ==>
            ActAll(Without(ts, s), path) == ActAll(ts, path)
  {
    if ts != [] {
      var init, last := ts[..|ts| - 1], ts[|ts| - 1];
      WithoutProperties(init, s);
      var kept := Without(ts, s);
      if last.pattern == s {
        assert kept == Without(init, s);
      } else {
        assert kept[..|kept| - 1] == Without(init, s);
      }
    }
  }

  lemma LeafAct(s: string, a: Option<Actions>, path: seq<string>)
    requires path != []
    ensures Act(NewNode(s, a), path) == if s == "**" || SegMatches(s, path[0]) then a else None
  {
    assert |path| > 1 ==> ActAll([], path[1..]) == None;
  }

  lemma ExtendedProperties(ts: seq<Tree>, s: string)
    requires ShapedAll(ts) && s != "**"
    ensures ShapedAll(Extended(ts, s))
    ensures forall path :: path != [] ==> ActAll(Extended(ts, s), path) == ActAll(ts, path)
  {
    var all := Extended(ts, s);
    if |all| > |ts| {
      assert all[..|all| - 1] == ts;
      forall path: seq<string> | path != [] ensures ActAll(all, path) == ActAll(ts, path) {
        LeafAct(s, None, path);
      }
    }
  }

  lemma {:induction false} GrowShaped(ts: seq<Tree>, segs: seq<string>, a: Actions)
    requires ShapedAll(ts) && StarsLast(segs)
    ensures ShapedAll(Grow(ts, segs, a))
    decreases |segs|
  {
    if |segs| == 1 {
      WithoutProperties(ts, segs[0]);
    } else {
      ExtendedProperties(ts, segs[0]);
      var all := Extended(ts, segs[0]);
      forall i | 0 <= i < |all| ensures Shaped(GrowChild(all[i], segs, a)) {
        if all[i].pattern == segs[0] { GrowShaped(all[i].children, segs[1..], a); }
      }
    }
  }

  lemma {:induction false} GrowChildAct(t: Tree, segs: seq<string>, a: Actions, path: seq<string>)
    requires Shaped(t) && StarsLast(segs) && |segs| > 1 && path != []
    ensures Act(GrowChild(t, segs, a), path) ==
            if t.pattern == segs[0] && Matches(segs, path) then Some(a) else Act(t, path)
    decreases |segs|, 0
  {
    if t.pattern == segs[0] && |path| > 1 {
      GrowAct(t.children, segs[1..], a, path[1..]);
    }
  }

  lemma ActAllCong(ts: seq<Tree>, us: seq<Tree>, path: seq<string>)
    requires path != [] && |ts| == |us|
    requires forall i :: 0 <= i < |ts| ==> Act(ts[i], path) == Act(us[i], path)
    ensures ActAll(ts, path) == ActAll(us, path)
  {
    if ts != [] { ActAllCong(ts[..|ts| - 1], us[..|us| - 1], path); }
  }

  lemma {:induction false} GrowChildrenAct(all: seq<Tree>, segs: seq<string>, a: Actions, path: seq<string>)
    requires ShapedAll(all) && StarsLast(segs) && |segs| > 1 && path != []
    requires all != [] && all[|all| - 1].pattern == segs[0]
    ensures ActAll(GrowChildren(all, segs, a), path) == if Matches(segs, path) then Some(a) else ActAll(all, path)
    decreases |segs|, 1
  {
    var grown := GrowChildren(all, segs, a);
    forall i | 0 <= i < |all|
      ensures Act(grown[i], path) ==
              if all[i].pattern == segs[0] && Matches(segs, path) then Some(a) else Act(all[i], path)
    {
      GrowChildAct(all[i], segs, a, path);
    }
    if !Matches(segs, path) { ActAllCong(grown, all, path); }
  }

  // Adding one rule yields exactly its actions where it matches and changes nothing elsewhere, in spite of
  // the copies under earlier siblings and the pruning of equal patterns.
  lemma {:induction false} GrowAct(ts: seq<Tree>, segs: seq<string>, a: Actions, path: seq<string>)
    requires ShapedAll(ts) && StarsLast(segs) && path != []
    ensures ActAll(Grow(ts, segs, a), path) == if Matches(segs, path) then Some(a) else ActAll(ts, path)
    decreases |segs|, 2
  {
    if |segs| == 1 {
      var grown := Grow(ts, segs, a);
      assert grown[..|grown| - 1] == Without(ts, segs[0]);
      LeafAct(segs[0], Some(a), path);
      if segs[0] == "**" {
        assert Matches(segs[1..], path[1..]);
      } else {
        WithoutProperties(ts, segs[0]);
      }
    } else {
      ExtendedProperties(ts, segs[0]);
      GrowChildrenAct(Extended(ts, segs[0]), segs, a, path);
    }
  }

  lemma BuildSnoc(rules: seq<Rule>, last: Rule)
    requires last.segs != [] && forall r :: r in rules ==> r.segs != []
    ensures Build(rules + [last]) == Grow(Build(rules), last.segs, last.actions)
  {
    assert (rules + [last])[..|rules|] == rules;
  }

  lemma {:induction false} BuildShaped(rules: seq<Rule>)
    requires Plain(rules)
    ensures ShapedAll(Build(rules))
  {
    if rules != [] {
      var last := rules[|rules| - 1];
      BuildShaped(rules[..|rules| - 1]);
      GrowShaped(Build(rules[..|rules| - 1]), last.segs, last.actions);
    }
  }

  lemma {:induction false} BuildAct(rules: seq<Rule>, path: seq<string>)
    requires Plain(rules) && IsPath(path)
    ensures ActAll(Build(rules), path) == Some(Verdict(rules, path))
  {
    if rules == [] {
      DefaultMatchesAll(path[0]);
      assert EMPTY_GRAPH[0].children == [];
    } else {
      var init, last := rules[..|rules| - 1], rules[|rules| - 1];
      BuildAct(init, path);
      BuildShaped(init);
      GrowAct(Build(init), last.segs, last.actions, path);
    }
  }

  // ---------------------------------------------------------------- what descend means

  // Some branch from the top spells the patterns p.
  predicate HasChain(ts: seq<Tree>, p: seq<string>)
    requires p != []
    decreases |p|
  {
    exists i :: 0 <= i < |ts| && ts[i].pattern == p[0] && (|p| == 1 || HasChain(ts[i].children, p[1..]))
  }

  lemma {:induction false} WithoutChain(ts: seq<Tree>, s: string, p: seq<string>)
    requires p != []
    ensures HasChain(Without(ts, s), p) <==> HasChain(ts, p) && p[0] != s
  {
    if ts != [] {
      var init, last := ts[..|ts| - 1], ts[|ts| - 1];
      WithoutChain(init, s, p);
      assert ts == init + [last];
      ChainSnoc(init, last, p);
      ChainSnoc(Without(init, s), last, p);
      assert last.pattern == s ==> Without(ts, s) == Without(init, s);
    }
  }

  lemma ChainSnoc(init: seq<Tree>, last: Tree, p: seq<string>)
    requires p != []
    ensures HasChain(init + [last], p) <==>
            HasChain(init, p) || (last.pattern == p[0] && (|p| == 1 || HasChain(last.children, p[1..])))
  {
    var ts := init + [last];
    assert forall i :: 0 <= i < |init| ==> init[i] == ts[i];
    assert ts[|init|] == last;
  }

  lemma ExtendedChain(ts: seq<Tree>, s: string, p: seq<string>)
    requires p != []
    ensures HasChain(Extended(ts, s), p) <==> HasChain(ts, p) || p == [s]
  {
    var all := Extended(ts, s);
    if |all| > |ts| {
      ChainSnoc(ts, NewNode(s, None), p);
    } else if p == [s] {
      assert ts[|ts| - 1].pattern == p[0];
    }
  }

  // The branches after a rule is added: those that begin the new rule, and those it neither equals nor begins.
  lemma {:induction false} GrowChain(ts: seq<Tree>, segs: seq<string>, a: Actions, p: seq<string>)
    requires segs != [] && p != []
    ensures HasChain(Grow(ts, segs, a), p) <==> p <= segs || (HasChain(ts, p) && !(segs <= p))
    decreases |segs|
  {
    if |segs| == 1 {
      WithoutChain(ts, segs[0], p);
      ChainSnoc(Without(ts, segs[0]), NewNode(segs[0], Some(a)), p);
    } else {
      GrowChainInner(ts, segs, a, p);
    }
  }

  lemma {:induction false} GrowChainInner(ts: seq<Tree>, segs: seq<string>, a: Actions, p: seq<string>)
    requires |segs| > 1 && p != []
    ensures HasChain(Grow(ts, segs, a), p) <==> p <= segs || (HasChain(ts, p) && !(segs <= p))
    decreases |segs|, 0
  {
    var all, grown := Extended(ts, segs[0]), Grow(ts, segs, a);
    ExtendedChain(ts, segs[0], p);
    ExtendedChain(ts, segs[0], [p[0]]);
    assert grown == GrowChildren(all, segs, a);
    forall i | 0 <= i < |all| ensures grown[i] == GrowChild(all[i], segs, a) && grown[i].pattern == all[i].pattern {}
    if p[0] != segs[0] || |p| == 1 {
      assert HasChain(grown, p) <==> HasChain(all, p);
      assert |p| == 1 && p[0] == segs[0] ==> p == [segs[0]];
    } else {
      assert p <= segs <==> p[1..] <= segs[1..] by { HeadedPrefix(p, segs); }
      assert segs <= p <==> segs[1..] <= p[1..] by { HeadedPrefix(segs, p); }
      forall i | 0 <= i < |all| && all[i].pattern == p[0]
        ensures HasChain(grown[i].children, p[1..]) <==>
                p <= segs || (HasChain(all[i].children, p[1..]) && !(segs <= p))
      {
        GrowChain(all[i].children, segs[1..], a, p[1..]);
      }
      assert all[|all| - 1].pattern == p[0];
    }
  }

  lemma HeadedPrefix(a: seq<string>, b: seq<string>)
    requires a != [] && b != [] && a[0] == b[0]
    ensures a <= b <==> a[1..] <= b[1..]
  {
    assert a == [a[0]] + a[1..] && b == [b[0]] + b[1..];
    if a[1..] <= b[1..] {
      assert b[1..][..|a| - 1] == a[1..];
      assert b[..|a|] == a;
    }
  }

  // Branches of two or more segments come from rules, and the last word on a branch is the last rule touching it.
  ghost predicate Spelt(rules: seq<Rule>, p: seq<string>) {
    exists i :: 0 <= i < |rules| && p <= rules[i].segs && forall j :: i < j < |rules| ==> !(rules[j].segs <= p)
  }

  lemma SpeltSnoc(init: seq<Rule>, last: Rule, p: seq<string>)
    ensures Spelt(init + [last], p) <==> p <= last.segs || (Spelt(init, p) && !(last.segs <= p))
  {
    var rules := init + [last];
    if p <= last.segs {
      assert rules[|init|] == last;
    } else if Spelt(init, p) && !(last.segs <= p) {
      var i :| 0 <= i < |init| && p <= init[i].segs && forall j :: i < j < |init| ==> !(init[j].segs <= p);
      assert rules[i] == init[i];
    } else if Spelt(rules, p) {
      var i :| 0 <= i < |rules| && p <= rules[i].segs && forall j :: i < j < |rules| ==> !(rules[j].segs <= p);
      assert rules[i] == init[i] && rules[|init|] == last;
      forall j | i < j < |init| ensures !(init[j].segs <= p) { assert init[j] == rules[j]; }
    }
  }

  lemma {:induction false} BuildChain(rules: seq<Rule>, p: seq<string>)
    requires |p| > 1 && forall r :: r in rules ==> r.segs != []
    ensures HasChain(Build(rules), p) <==> Spelt(rules, p)
  {
    if rules == [] {
      assert EMPTY_GRAPH[0].children == [];
    } else {
      var init, last := rules[..|rules| - 1], rules[|rules| - 1];
      assert rules == init + [last];
      BuildChain(init, p);
      GrowChain(Build(init), last.segs, last.actions, p);
      SpeltSnoc(init, last, p);
    }
  }

  // p continues past the path, and its segments match the path's one by one.
  predicate Covers(p: seq<string>, path: seq<string>) {
    |p| > |path| && forall k :: 0 <= k < |path| ==> SegMatches(p[k], path[k])
  }

  lemma {:induction false} ReachesHasChain(ts: seq<Tree>, path: seq<string>) returns (p: seq<string>)
    requires ShapedAll(ts) && path != [] && ReachesAll(ts, path)
    ensures |p| == |path| + 1 && Covers(p, path) && HasChain(ts, p)
    decreases |path|
  {
    var i :| 0 <= i < |ts| && Reaches(ts[i], path);
    var t := ts[i];
    if |path| == 1 {
      p := [t.pattern, t.children[0].pattern];
      assert HasChain(t.children, p[1..]);
    } else {
      var q := ReachesHasChain(t.children, path[1..]);
      p := [t.pattern] + q;
      assert p[1..] == q;
      forall k | 0 <= k < |path| ensures SegMatches(p[k], path[k]) {
        if k > 0 { assert p[k] == q[k - 1] && path[k] == path[1..][k - 1]; }
      }
    }
  }

  lemma {:induction false} ChainReaches(ts: seq<Tree>, path: seq<string>, p: seq<string>)
    requires ShapedAll(ts) && path != [] && |p| == |path| + 1 && Covers(p, path) && HasChain(ts, p)
    ensures ReachesAll(ts, path)
    decreases |path|
  {
    var i :| 0 <= i < |ts| && ts[i].pattern == p[0] && HasChain(ts[i].children, p[1..]);
    var t := ts[i];
    assert Shaped(t) && t.children != [];
    if |path| > 1 {
      forall k | 0 <= k < |path[1..]| ensures SegMatches(p[1..][k], path[1..][k]) {
        assert p[1..][k] == p[k + 1] && path[1..][k] == path[k + 1];
      }
      ChainReaches(t.children, path[1..], p[1..]);
    }
    assert Reaches(t, path);
  }

  // Some rule goes on below the path, and no later rule is textually equal to it or a leading part of it.
  ghost predicate Descends(rules: seq<Rule>, path: seq<string>) {
    exists i :: 0 <= i < |rules| && Covers(rules[i].segs, path) && Unpruned(rules, i)
  }

  ghost predicate Unpruned(rules: seq<Rule>, i: nat)
    requires i < |rules|
  {
    forall j :: i < j < |rules| ==> !(rules[j].segs <= rules[i].segs)
  }

  // The last rule that begins with p is not pruned when p itself is still spelt.
  lemma {:induction false} LastSpeaker(rules: seq<Rule>, p: seq<string>, i: nat) returns (last: nat)
    requires i < |rules| && p <= rules[i].segs && forall j :: i < j < |rules| ==> !(rules[j].segs <= p)
    ensures last < |rules| && p <= rules[last].segs && Unpruned(rules, last)
    decreases |rules| - i
  {
    if Unpruned(rules, i) {
      last := i;
    } else {
      var j :| i < j < |rules| && rules[j].segs <= rules[i].segs;
      assert p <= rules[j].segs by {
        assert |rules[j].segs| > |p| by {
          assert rules[j].segs <= rules[i].segs && p <= rules[i].segs && !(rules[j].segs <= p);
        }
        assert p == rules[i].segs[..|p|] == rules[j].segs[..|p|];
      }
      last := LastSpeaker(rules, p, j);
    }
  }

  lemma ReachesDescends(rules: seq<Rule>, path: seq<string>)
    requires Plain(rules) && IsPath(path) && ReachesAll(Build(rules), path)
    ensures Descends(rules, path)
  {
    BuildShaped(rules);
    var p := ReachesHasChain(Build(rules), path);
    BuildChain(rules, p);
    var i :| 0 <= i < |rules| && p <= rules[i].segs && forall j :: i < j < |rules| ==> !(rules[j].segs <= p);
    var last := LastSpeaker(rules, p, i);
    assert Covers(rules[last].segs, path) by {
      forall k | 0 <= k < |path| ensures SegMatches(rules[last].segs[k], path[k]) {
        assert p[k] == rules[last].segs[k];
      }
    }
  }

  lemma DescendsReaches(rules: seq<Rule>, path: seq<string>, i: nat)
    requires Plain(rules) && IsPath(path)
    requires i < |rules| && Covers(rules[i].segs, path) && Unpruned(rules, i)
    ensures ReachesAll(Build(rules), path)
  {
    var p := rules[i].segs[..|path| + 1];
    assert forall j :: i < j < |rules| && rules[j].segs <= p ==> rules[j].segs <= rules[i].segs;
    assert Spelt(rules, p);
    BuildShaped(rules);
    BuildChain(rules, p);
    ChainReaches(Build(rules), path, p);
  }

  lemma ReachesIffDescends(rules: seq<Rule>, path: seq<string>)
    requires Plain(rules) && IsPath(path)
    ensures ReachesAll(Build(rules), path) <==> Descends(rules, path)
  {
    if ReachesAll(Build(rules), path) { ReachesDescends(rules, path); }
    if Descends(rules, path) {
      var i :| 0 <= i < |rules| && Covers(rules[i].segs, path) && Unpruned(rules, i);
      DescendsReaches(rules, path, i);
    }
  }

  // ---------------------------------------------------------------- the main results on lookups

  // For every rule list with "**" only at the end of rules and every path, a lookup never aborts, returns the
  // actions of the last matching rule, and reports descend exactly when an unpruned rule goes on below the path.
  lemma LastRuleWins(rules: seq<Rule>, path: seq<string>)
    requires Plain(rules) && IsPath(path)
    ensures GetAction(Build(rules), path) == Done(ActionResult(Verdict(rules, path), Descends(rules, path)))
  {
    BuildShaped(rules);
    BuildAct(rules, path);
    ReachesIffDescends(rules, path);
    LookupShapedAll(Build(rules), path, FALLBACK);
  }

  lemma {:induction false} VerdictOf(rules: seq<Rule>, after: seq<Rule>, path: seq<string>)
    requires forall r :: r in after ==> !Matches(r.segs, path)
    ensures Verdict(rules + after, path) == Verdict(rules, path)
  {
    if after == [] {
      assert rules + after == rules;
    } else {
      var init, last := after[..|after| - 1], after[|after| - 1];
      VerdictOf(rules, init, path);
      assert last in after && (rules + after)[|rules + after| - 1] == last;
      assert (rules + after)[..|rules + after| - 1] == rules + init;
    }
  }

  // A matching rule that no later one matches as well decides.
  lemma LastMatchDecides(before: seq<Rule>, rule: Rule, after: seq<Rule>, path: seq<string>)
    requires Plain(before + [rule] + after) && IsPath(path)
    requires Matches(rule.segs, path) && forall r :: r in after ==> !Matches(r.segs, path)
    ensures var found := GetAction(Build(before + [rule] + after), path);
            found.Done? && found.result.actions == rule.actions
  {
    LastRuleWins(before + [rule] + after, path);
    VerdictOf(before + [rule], after, path);
    assert (before + [rule])[..|before|] == before;
  }

  // Where no rule matches, the base layer loses the path and the user layer keeps it.
  lemma UnmatchedByDefault(rules: seq<Rule>, path: seq<string>)
    requires Plain(rules) && IsPath(path) && forall r :: r in rules ==> !Matches(r.segs, path)
    ensures var found := GetAction(Build(rules), path);
            found.Done? && found.result.actions == Actions(Delete, Keep)
  {
    LastRuleWins(rules, path);
    VerdictOf([], rules, path);
    assert [] + rules == rules;
  }

  lemma {:induction false} StopsHere(t: Tree, path: seq<string>, below: seq<string>)
    requires Shaped(t) && path != [] && !Reaches(t, path)
    ensures Act(t, path + below) == Act(t, path) && !Reaches(t, path + below)
    decreases t, 0
  {
    if t.kind.Single? && SegMatches(t.pattern, path[0]) && below != [] {
      assert (path + below)[1..] == path[1..] + below;
      if |path| == 1 {
        assert ActAll(t.children, (path + below)[1..]) == None;
      } else {
        StopsHereAll(t.children, path[1..], below);
      }
    } else {
      assert below == [] ==> path + below == path;
    }
  }

  lemma {:induction false} StopsHereAll(ts: seq<Tree>, path: seq<string>, below: seq<string>)
    requires ShapedAll(ts) && path != [] && !ReachesAll(ts, path)
    ensures ActAll(ts, path + below) == ActAll(ts, path) && !ReachesAll(ts, path + below)
    decreases ts, 1
  {
    forall i | 0 <= i < |ts|
      ensures Act(ts[i], path + below) == Act(ts[i], path) && !Reaches(ts[i], path + below)
    {
      StopsHere(ts[i], path, below);
    }
    SameActs(ts, path + below, path);
  }

  lemma SameActs(ts: seq<Tree>, path: seq<string>, path': seq<string>)
    requires path != [] && path' != []
    requires forall i :: 0 <= i < |ts| ==> Act(ts[i], path) == Act(ts[i], path')
    ensures ActAll(ts, path) == ActAll(ts, path')
  {
    if ts != [] { SameActs(ts[..|ts| - 1], path, path'); }
  }

  // When a lookup says not to descend, every path below gets the same answer.
  lemma NoDescendIsFinal(graph: seq<Tree>, path: seq<string>, below: seq<string>)
    requires ShapedAll(graph) && path != []
    requires GetAction(graph, path).Done? && !GetAction(graph, path).result.descend
    ensures GetAction(graph, path + below) == GetAction(graph, path)
  {
    LookupShapedAll(graph, path, FALLBACK);
    LookupShapedAll(graph, path + below, FALLBACK);
    StopsHereAll(graph, path, below);
  }

  lemma LookupTotal(graph: seq<Tree>, path: seq<string>)
    requires ShapedAll(graph) && path != []
    ensures GetAction(graph, path).Done?
  {
    LookupShapedAll(graph, path, FALLBACK);
  }

  // The rightmost branch spells the rule added last and carries its actions at its end only.
  predicate Rightmost(ts: seq<Tree>, segs: seq<string>, a: Actions)
    requires segs != []
    decreases |segs|
  {
    ts != [] &&
    var last := ts[|ts| - 1];
    last.pattern == segs[0] &&
    if |segs| == 1 then last.actions == Some(a) && last.children == [] else Rightmost(last.children, segs[1..], a)
  }

  // Every node without actions has a child.
  predicate NoBareLeaf(t: Tree)
    decreases t, 0
  {
    (t.actions.None? ==> t.children != []) && NoBareLeaves(t.children)
  }

  predicate NoBareLeaves(ts: seq<Tree>)
    decreases ts, 1
  {
    forall c :: c in ts ==> NoBareLeaf(c)
  }

  lemma {:induction false} GrowRightmost(ts: seq<Tree>, segs: seq<string>, a: Actions)
    requires segs != []
    ensures Rightmost(Grow(ts, segs, a), segs, a)
    ensures NoBareLeaves(ts) ==> NoBareLeaves(Grow(ts, segs, a))
    decreases |segs|
  {
    if |segs| == 1 {
      WithoutSubset(ts, segs[0]);
    } else {
      var all := Extended(ts, segs[0]);
      assert Grow(ts, segs, a) == GrowChildren(all, segs, a);
      forall i | 0 <= i < |all| && all[i].pattern == segs[0]
        ensures Rightmost(Grow(all[i].children, segs[1..], a), segs[1..], a)
        ensures NoBareLeaves(ts) ==> NoBareLeaf(GrowChild(all[i], segs, a))
      {
        assert NoBareLeaves(ts) ==> NoBareLeaves(all[i].children) by {
          assert i < |ts| ==> all[i] in ts && all[i] == ts[i];
          assert NoBareLeaves(ts) && i < |ts| ==> NoBareLeaf(all[i]);
          assert i >= |ts| ==> all[i].children == [];
        }
        GrowRightmost(all[i].children, segs[1..], a);
      }
    }
  }

  lemma {:induction false} WithoutSubset(ts: seq<Tree>, s: string)
    ensures forall t :: t in Without(ts, s) ==> t in ts
  {
    if ts != [] { WithoutSubset(ts[..|ts| - 1], s); }
  }
}
