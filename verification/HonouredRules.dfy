// Which rules the cleanup of a folder honours: exactly those with "**" at the end only, those the enforced rule
// overrules, and those that match no entry at all.
module HonouredRules {
  import opened Wrappers
  import opened Glob
  import opened GlobExact
  import opened DecisionTree
  import opened RuleText
  import opened FolderTree
  import opened Cleanup
  import Aborts
  import InnerStars
  import RuleOrder

  // ---------------------------------------------------------------- a rule of one name

  // A one-segment rule is a leaf behind all others.
  lemma LeafRule(rules: seq<Rule>, s: string, a: Actions)
    requires forall r :: r in rules ==> r.segs != []
    ensures Build(rules + [Rule([s], a)]) == Without(Build(rules), s) + [NewNode(s, Some(a))]
  {
    RuleOrder.BuildSnoc(rules, Rule([s], a));
  }

  lemma LeafAskedLast(others: seq<Tree>, leaf: Tree, path: seq<string>, r: ActionResult)
    requires leaf.kind.Single? && leaf.children == [] && leaf.actions.Some? && path != []
    ensures var before, found := LookupAll(others, path, r), LookupAll(others + [leaf], path, r);
            if before.Panic? || !SegMatches(leaf.pattern, path[0]) then found == before
            else found.Done? && found.result.actions == leaf.actions.value
  {
    assert (others + [leaf])[..|others|] == others;
    var before := LookupAll(others, path, r);
    if before.Done? {
      var r1 := before.result.(actions := leaf.actions.value);
      assert LookupAll([], path[1..], r1) == Done(r1);
    }
  }

  // Nodes that do not match can go.
  lemma {:induction false} WithoutSilent(ts: seq<Tree>, s: string, path: seq<string>, r: ActionResult)
    requires (forall i :: 0 <= i < |ts| && ts[i].pattern == s ==> ts[i].kind.Single?)
    requires path != [] && !SegMatches(s, path[0])
    ensures LookupAll(Without(ts, s), path, r) == LookupAll(ts, path, r)
  {
    if ts != [] {
      var init, last := ts[..|ts| - 1], ts[|ts| - 1];
      WithoutSilent(init, s, path, r);
      if last.pattern != s {
        Front(Without(init, s), last);
      } else {
        assert ts[|ts| - 1].kind.Single?;
        assert Without(ts, s) == Without(init, s);
      }
    }
  }

  // Only "**" makes a node of the other kind.
  predicate Kinds(ts: seq<Tree>) {
    forall i :: 0 <= i < |ts| ==> ts[i].pattern != "**" ==> ts[i].kind.Single?
  }

  lemma {:induction false} WithoutKinds(ts: seq<Tree>, s: string)
    requires Kinds(ts)
    ensures Kinds(Without(ts, s))
  {
    if ts != [] { WithoutKinds(ts[..|ts| - 1], s); }
  }

  lemma GrowKinds(ts: seq<Tree>, segs: seq<string>, a: Actions)
    requires Kinds(ts) && segs != []
    ensures Kinds(Grow(ts, segs, a))
  {
    if |segs| == 1 {
      WithoutKinds(ts, segs[0]);
    } else {
      var all := Extended(ts, segs[0]);
      assert Kinds(all) && Grow(ts, segs, a) == GrowChildren(all, segs, a);
      assert forall i :: 0 <= i < |all| ==> GrowChildren(all, segs, a)[i] == GrowChild(all[i], segs, a);
    }
  }

  lemma {:induction false} BuildKinds(rules: seq<Rule>)
    requires forall r :: r in rules ==> r.segs != []
    ensures Kinds(Build(rules))
  {
    if rules != [] {
      var init, last := rules[..|rules| - 1], rules[|rules| - 1];
      assert last in rules;
      BuildKinds(init);
      GrowKinds(Build(init), last.segs, last.actions);
    }
  }

  // What a rule of one ordinary name does: it decides about the name and leaves all other paths as they were.
  lemma NameRule(rules: seq<Rule>, s: string, a: Actions, path: seq<string>)
    requires (forall r :: r in rules ==> r.segs != []) && '@' !in s && '*' !in s && IsPath(path)
    ensures var found := GetAction(Build(rules + [Rule([s], a)]), path);
            if path[0] == s then found.Done? ==> found.result.actions == a else found == GetAction(Build(rules), path)
  {
    var others, leaf := Without(Build(rules), s), NewNode(s, Some(a));
    LeafRule(rules, s, a);
    PlainMatches(s, path[0]);
    assert s != "**" by { assert "**"[0] == '*'; }
    LeafAskedLast(others, leaf, path, FALLBACK);
    if path[0] != s {
      BuildKinds(rules);
      WithoutSilent(Build(rules), s, path, FALLBACK);
    }
  }

  // ---------------------------------------------------------------- rules for ".keep" itself

  lemma {:induction false} WithoutSame(ts: seq<Tree>, us: seq<Tree>, s: string)
    requires |ts| == |us|
    requires forall i :: 0 <= i < |ts| ==> ts[i].pattern == us[i].pattern && (ts[i].pattern == s || ts[i] == us[i])
    ensures Without(ts, s) == Without(us, s)
  {
    if ts != [] { WithoutSame(ts[..|ts| - 1], us[..|us| - 1], s); }
  }

  // What grows below nodes of a pattern goes with them.
  lemma GrownGoes(ts: seq<Tree>, segs: seq<string>, a: Actions)
    requires |segs| > 1
    ensures Without(Grow(ts, segs, a), segs[0]) == Without(ts, segs[0])
  {
    var s := segs[0];
    var all := Extended(ts, s);
    assert Grow(ts, segs, a) == GrowChildren(all, segs, a);
    assert forall i :: 0 <= i < |all| ==> GrowChildren(all, segs, a)[i] == GrowChild(all[i], segs, a);
    WithoutSame(GrowChildren(all, segs, a), all, s);
    if all != ts { assert all[..|all| - 1] == ts; }
  }

  // A longer rule that begins with ".keep" leaves no trace behind the enforced rule.
  lemma KeepOverrules(before: seq<Rule>, segs: seq<string>, a: Actions)
    requires (forall r :: r in before ==> r.segs != []) && |segs| > 1 && segs[0] == ".keep"
    ensures Build(before + [Rule(segs, a)] + [KEEP_RULE]) == Build(before + [KEEP_RULE])
  {
    RuleOrder.BuildSnoc(before, Rule(segs, a));
    RuleOrder.BuildSnoc(before, KEEP_RULE);
    RuleOrder.BuildSnoc(before + [Rule(segs, a)], KEEP_RULE);
    GrownGoes(Build(before), segs, a);
  }

  lemma SameVerdict(before: seq<Rule>, segs: seq<string>, a: Actions, path: seq<string>)
    requires segs != [] && segs[0] == ".keep" && IsPath(path)
    ensures Verdict(before + [Rule(segs, a)] + [KEEP_RULE], path) == Verdict(before + [KEEP_RULE], path)
  {
    var rules := before + [Rule(segs, a)];
    KeepRuleEnforced(rules, path);
    KeepRuleEnforced(before, path);
    PlainMatches(segs[0], path[0]);
    assert rules[..|rules| - 1] == before;
    assert path[0] != ".keep" ==> !Matches(segs, path);
  }

  lemma KeepRulesClean(before: seq<Rule>, segs: seq<string>, a: Actions, mode: Mode, nodes: Nodes)
    requires Plain(before) && |segs| > 1 && segs[0] == ".keep" && WellFormed(nodes)
    ensures CleansByRules(before + [Rule(segs, a)], mode, nodes)
  {
    KeepOverrules(before, segs, a);
    CleanedByRules(before, mode, nodes);
    var rules := before + [Rule(segs, a)];
    forall q | q in nodes && q != [] ensures KeptByRules(rules, mode, q) <==> KeptByRules(before, mode, q) {
      NamesOnPath(nodes, q);
      SameVerdict(before, segs, a, q);
    }
    forall p | p in nodes && p != [] ensures Remains(rules, mode, nodes, p) <==> Remains(before, mode, nodes, p) {
      assert forall q :: q in nodes && p <= q ==> q != [];
    }
  }

  // ---------------------------------------------------------------- rules with an inner "**"

  // An entry outside ".keep" that the rule matches.
  function EntryFor(segs: seq<string>): FsPath
    requires segs != []
  {
    [if segs[0] == "**" then "x" else SegmentBeside(segs[0], ".keep")] + InnerStars.PathFor(segs[1..])
  }

  // Segments that can match the names of entries.
  predicate NameSegments(segs: seq<string>) {
    InnerStars.SplitSegments(segs) && "" !in segs
  }

  lemma {:induction false} PathIsNames(segs: seq<string>)
    requires forall s :: s in segs ==> NoSlash(s) && s != ""
    ensures forall n :: n in InnerStars.PathFor(segs) ==> IsName(n)
  {
    if segs != [] {
      SegmentForMatches(segs[0]);
      PathIsNames(segs[1..]);
    }
  }

  lemma EntryForMatches(segs: seq<string>)
    requires NameSegments(segs) && segs[0] != ".keep"
    ensures var p := EntryFor(segs);
            Matches(segs, p) && p[0] != ".keep" && IsPath(p) && forall n :: n in p ==> IsName(n)
  {
    var p, rest := EntryFor(segs), segs[1..];
    assert segs[0] in segs && forall s :: s in rest ==> s in segs;
    SegmentBesideMatches(segs[0], ".keep");
    PathIsNames(rest);
    if rest != [] { InnerStars.PathForMatches(rest); }
    assert p[1..] == InnerStars.PathFor(rest) && Matches(rest, p[1..]);
  }

  // The enforced rule does not help: outside ".keep" the rule in question still has no effect.
  lemma StillIgnored(segs: seq<string>, x: Actions, a: Actions, path: seq<string>)
    requires segs != [] && !StarsLast(segs) && segs[0] != ".keep" && IsPath(path) && path[0] != ".keep"
    ensures var found := GetAction(Build([Rule(["**"], x), Rule(segs, a)] + [KEEP_RULE]), path);
            found.Done? && found.result.actions == x
  {
    var rules := [Rule(["**"], x), Rule(segs, a)];
    InnerStars.InnerStarIgnored(segs, x, a, path);
    NameRule(rules, ".keep", KEEP_RULE.actions, path);
  }

  // The folder tree that holds one file.
  function OneFile(p: FsPath): Nodes {
    map q | q in Beginnings(p) :: if q == p then File else Dir
  }

  function Beginnings(p: FsPath): set<FsPath> {
    set n | 0 <= n <= |p| :: p[..n]
  }

  lemma OneFileEntries(p: FsPath)
    requires p != [] && forall n :: n in p ==> IsName(n)
    ensures WellFormed(OneFile(p)) && p in OneFile(p) && forall q :: q in OneFile(p) ==> q <= p
  {
    var nodes := OneFile(p);
    assert p[..0] == [] && p[..|p|] == p;
    forall q | q in nodes && q != [] ensures Parent(q) in nodes && nodes[Parent(q)] == Dir && IsName(q[|q| - 1]) {
      assert Parent(q) == p[..|q| - 1] && q[|q| - 1] == p[|q| - 1];
    }
  }

  // The file that the rule keeps is not kept.
  lemma InnerStarLoses(segs: seq<string>)
    requires NameSegments(segs) && !StarsLast(segs) && segs[0] != ".keep"
    ensures var rules := [Rule(["**"], Actions(Delete, Keep))] + [Rule(segs, Actions(Keep, Delete))];
            var p := EntryFor(segs);
            WellFormed(OneFile(p)) && !CleansByRules(rules, Base, OneFile(p))
  {
    var x, a := Actions(Delete, Keep), Actions(Keep, Delete);
    var rules, p := [Rule(["**"], x)] + [Rule(segs, a)], EntryFor(segs);
    EntryForMatches(segs);
    OneFileEntries(p);
    assert rules == [Rule(["**"], x), Rule(segs, a)];
    KeepRuleEnforced(rules, p);
    assert KeptByRules(rules, Base, p) && Remains(rules, Base, OneFile(p), p);
    var j := RunJudge(rules, Base);
    var d := Decider(JudgeOf(Build(rules + [KEEP_RULE]), Base), p);
    assert d[0] == p[0] && IsPath(d);
    StillIgnored(segs, x, a, d);
    assert !j.keeps(p);
    forall q | q in OneFile(p) && p <= q ensures q == p {}
    assert !Survives(j, OneFile(p), p);
    assert p !in CleanedBelow(j, OneFile(p), []);
  }

  // ---------------------------------------------------------------- rules that match no entry

  predicate IsNames(path: FsPath) {
    path != [] && forall n :: n in path ==> IsName(n)
  }

  // A rule with an empty segment, as two slashes in a row or one at the end make it, matches no entry.
  lemma {:induction false} EmptyMatchesNothing(segs: seq<string>, path: FsPath)
    requires "" in segs && forall n :: n in path ==> IsName(n)
    ensures !Matches(segs, path)
  {
    assert segs == [segs[0]] + segs[1..];
    if segs[0] == "**" {
      forall k | 1 <= k <= |path| ensures !Matches(segs[1..], path[k..]) { EmptyMatchesNothing(segs[1..], path[k..]); }
    } else if path != [] {
      assert IsName(path[0]);
      PlainMatches("", path[0]);
      if segs[0] != "" { EmptyMatchesNothing(segs[1..], path[1..]); }
    }
  }

  // The first outcome sets the same actions and descends wherever the second does.
  predicate Covers(o': Outcome, o: Outcome) {
    o'.Done? && o.Done? && Over(o'.result, o.result)
  }

  predicate Over(r': ActionResult, r: ActionResult) {
    r'.actions == r.actions && (r.descend ==> r'.descend)
  }

  lemma SameCovers(t: Tree, path: FsPath, r': ActionResult, r: ActionResult)
    requires Shaped(t) && path != [] && Over(r', r)
    ensures Covers(Lookup(t, path, r'), Lookup(t, path, r))
  {
    LookupShaped(t, path, r');
    LookupShaped(t, path, r);
  }

  lemma AllCovers(ts: seq<Tree>, path: FsPath, r': ActionResult, r: ActionResult)
    requires ShapedAll(ts) && path != [] && Over(r', r)
    ensures Covers(LookupAll(ts, path, r'), LookupAll(ts, path, r))
  {
    LookupShapedAll(ts, path, r');
    LookupShapedAll(ts, path, r);
  }

  // A new inner node without children changes nothing.
  lemma ExtendedSilent(ts: seq<Tree>, s: string, path: FsPath, r: ActionResult)
    requires ShapedAll(ts) && path != []
    ensures ShapedAll(Extended(ts, s)) && LookupAll(Extended(ts, s), path, r) == LookupAll(ts, path, r)
  {
    var all, leaf := Extended(ts, s), NewNode(s, None);
    LookupShapedAll(ts, path, r);
    if all != ts {
      assert all[..|ts|] == ts;
      LookupShaped(leaf, path, LookupAll(ts, path, r).result);
      assert |path| > 1 ==> ActAll([], path[1..]) == None;
    }
  }

  lemma OneGrown(segs: seq<string>, a: Actions)
    requires segs != []
    ensures |Grow([], segs, a)| == 1
  {
    if |segs| > 1 { InnerStars.FreshBranch(segs, a); }
  }

  lemma EmptyLeafSilent(ts: seq<Tree>, s: string, a: Actions, path: FsPath, r: ActionResult)
    requires ShapedAll(ts) && s == "" && IsNames(path)
    ensures LookupAll(Without(ts, s) + [NewNode(s, Some(a))], path, r) == LookupAll(ts, path, r)
  {
    assert path[0] in path && IsName(path[0]);
    PlainMatches(s, path[0]);
    assert forall i :: 0 <= i < |ts| && ts[i].pattern == s ==> Shaped(ts[i]) && ts[i].kind.Single?;
    WithoutSilent(ts, s, path, r);
    LeafAskedLast(Without(ts, s), NewNode(s, Some(a)), path, r);
  }

  // Adding a rule with an empty segment changes no actions on paths of names.
  lemma {:induction false} GrowCovers(ts: seq<Tree>, segs: seq<string>, a: Actions, path: FsPath,
                                      r': ActionResult, r: ActionResult)
    requires ShapedAll(ts) && "" in segs && IsNames(path) && Over(r', r)
    ensures Covers(LookupAll(Grow(ts, segs, a), path, r'), LookupAll(ts, path, r))
    decreases |segs|, 2, 0
  {
    if |segs| == 1 {
      EmptyLeafSilent(ts, segs[0], a, path, r');
      AllCovers(ts, path, r', r);
    } else {
      var all := Extended(ts, segs[0]);
      ExtendedSilent(ts, segs[0], path, r);
      GrowChildrenCovers(all, |all|, segs, a, path, r', r);
      assert GrowChildren(all, segs, a)[..|all|] == GrowChildren(all, segs, a) && all[..|all|] == all;
    }
  }

  lemma {:induction false} GrowChildrenCovers(all: seq<Tree>, n: nat, segs: seq<string>, a: Actions, path: FsPath,
                                              r': ActionResult, r: ActionResult)
    requires ShapedAll(all) && n <= |all| && |segs| > 1 && "" in segs && IsNames(path) && Over(r', r)
    ensures Covers(LookupAll(GrowChildren(all, segs, a)[..n], path, r'), LookupAll(all[..n], path, r))
    decreases |segs|, 1, n
  {
    if n > 0 {
      var grown := GrowChildren(all, segs, a);
      GrowChildrenCovers(all, n - 1, segs, a, path, r', r);
      TakeSnoc(grown, n - 1);
      TakeSnoc(all, n - 1);
      GrowChildCovers(all[n - 1], segs, a, path, LookupAll(grown[..n - 1], path, r').result,
                      LookupAll(all[..n - 1], path, r).result);
    }
  }

  lemma {:induction false} GrowChildCovers(t: Tree, segs: seq<string>, a: Actions, path: FsPath,
                                           r': ActionResult, r: ActionResult)
    requires Shaped(t) && |segs| > 1 && "" in segs && IsNames(path) && Over(r', r)
    ensures Covers(Lookup(GrowChild(t, segs, a), path, r'), Lookup(t, path, r))
    decreases |segs|, 0, 0
  {
    var rest := segs[1..];
    if t.pattern != segs[0] {
      SameCovers(t, path, r', r);
    } else if t.kind.Multi? {
      OneGrown(rest, a);
    } else {
      assert IsName(path[0]) && segs == [segs[0]] + rest;
      PlainMatches("", path[0]);
      if SegMatches(t.pattern, path[0]) && |path| > 1 {
        GrowCovers(t.children, rest, a, path[1..], r'.(actions := t.actions.GetOr(r'.actions)),
                   r.(actions := t.actions.GetOr(r.actions)));
      }
    }
  }

  // One more rule behind plain ones makes no lookup abort.
  lemma {:induction false} GrowEnds(ts: seq<Tree>, segs: seq<string>, a: Actions)
    requires ShapedAll(ts) && segs != []
    ensures !Aborts.RunawayAny(Grow(ts, segs, a))
    decreases |segs|
  {
    if |segs| == 1 {
      ShapedEnds(ts);
      WithoutEnds(ts, segs[0]);
      assert !Aborts.Runaway(NewNode(segs[0], Some(a)));
    } else {
      ExtendedSilent(ts, segs[0], ["x"], FALLBACK);
      var all := Extended(ts, segs[0]);
      var grown := GrowChildren(all, segs, a);
      assert Grow(ts, segs, a) == grown;
      forall i | 0 <= i < |all| ensures !Aborts.Runaway(grown[i]) {
        assert grown[i] == GrowChild(all[i], segs, a) && Shaped(all[i]);
        ShapedEnd(all[i]);
        if all[i].pattern == segs[0] {
          OneGrown(segs[1..], a);
          GrowEnds(all[i].children, segs[1..], a);
        }
      }
    }
  }

  lemma {:induction false} ShapedEnd(t: Tree)
    requires Shaped(t)
    ensures !Aborts.Runaway(t)
    decreases t, 0
  {
    if t.kind.Single? { ShapedEnds(t.children); }
  }

  lemma {:induction false} ShapedEnds(ts: seq<Tree>)
    requires ShapedAll(ts)
    ensures !Aborts.RunawayAny(ts)
    decreases ts, 1
  {
    forall i | 0 <= i < |ts| ensures !Aborts.Runaway(ts[i]) { ShapedEnd(ts[i]); }
  }

  lemma {:induction false} WithoutEnds(ts: seq<Tree>, s: string)
    requires !Aborts.RunawayAny(ts)
    ensures !Aborts.RunawayAny(Without(ts, s))
  {
    if ts != [] {
      var init := ts[..|ts| - 1];
      assert forall i :: 0 <= i < |init| ==> init[i] == ts[i];
      WithoutEnds(init, s);
      var kept := Without(ts, s);
      forall i | 0 <= i < |kept| ensures !Aborts.Runaway(kept[i]) {
        if i < |Without(init, s)| { assert kept[i] == Without(init, s)[i]; }
      }
    }
  }

  lemma LookupsEnd(before: seq<Rule>, segs: seq<string>, a: Actions, path: FsPath)
    requires Plain(before) && segs != [] && path != []
    ensures GetAction(Build(before + [Rule(segs, a)] + [KEEP_RULE]), path).Done?
  {
    var rules, s := before + [Rule(segs, a)], KEEP_RULE.segs[0];
    RuleOrder.BuildSnoc(before, Rule(segs, a));
    RuleOrder.BuildShaped(before);
    GrowEnds(Build(before), segs, a);
    WithoutEnds(Build(rules), s);
    LeafRule(rules, s, KEEP_RULE.actions);
    var graph, leaf := Build(rules + [KEEP_RULE]), NewNode(s, Some(KEEP_RULE.actions));
    assert !Aborts.Runaway(leaf);
    assert forall i :: 0 <= i < |graph| - 1 ==> graph[i] == Without(Build(rules), s)[i];
    Aborts.LookupAllEnds(graph, path, FALLBACK);
  }

  // Outside ".keep" the actions of a lookup are those without the rule, and no folder is left unentered for it.
  lemma CoversBefore(before: seq<Rule>, segs: seq<string>, a: Actions, path: FsPath)
    requires Plain(before) && "" in segs && IsNames(path) && path[0] != ".keep"
    ensures Covers(GetAction(Build(before + [Rule(segs, a)] + [KEEP_RULE]), path), GetAction(Build(before), path))
  {
    var rules := before + [Rule(segs, a)];
    assert IsPath(path) by { assert forall n :: n in path ==> IsName(n); }
    RuleOrder.BuildSnoc(before, Rule(segs, a));
    RuleOrder.BuildShaped(before);
    GrowCovers(Build(before), segs, a, path, FALLBACK, FALLBACK);
    NameRule(rules, KEEP_RULE.segs[0], KEEP_RULE.actions, path);
  }

  // What the rules say about a path of names, with the rule and without it.
  lemma SameVerdictAnyway(before: seq<Rule>, segs: seq<string>, a: Actions, path: FsPath)
    requires "" in segs && IsNames(path) && IsPath(path)
    ensures Verdict(before + [Rule(segs, a)] + [KEEP_RULE], path) ==
            if path[0] == ".keep" then KEEP_RULE.actions else Verdict(before, path)
  {
    var rules := before + [Rule(segs, a)];
    KeepRuleEnforced(rules, path);
    EmptyMatchesNothing(segs, path);
    assert rules[..|rules| - 1] == before;
  }

  // The answer about d is what the rules say about every path below d, if d is not entered, and about d itself.
  lemma AnsweredAnyway(before: seq<Rule>, segs: seq<string>, a: Actions, d: FsPath, q: FsPath)
    requires Plain(before) && "" in segs && IsNames(d) && IsNames(q) && IsPath(d) && IsPath(q) && d <= q
    ensures var rules := before + [Rule(segs, a)] + [KEEP_RULE];
            var found := GetAction(Build(rules), d);
            found.Done? && (d == q || !found.result.descend ==> found.result.actions == Verdict(rules, q))
  {
    LookupsEnd(before, segs, a, d);
    SameVerdictAnyway(before, segs, a, q);
    assert d[0] == q[0];
    if q[0] == ".keep" {
      NameRule(before + [Rule(segs, a)], KEEP_RULE.segs[0], KEEP_RULE.actions, d);
    } else {
      CoversBefore(before, segs, a, d);
      VerdictAbove(before, d, q);
    }
  }

  // What decides about an entry decides as the rules do about the entry.
  lemma JudgedAnyway(before: seq<Rule>, segs: seq<string>, a: Actions, mode: Mode, nodes: Nodes, q: FsPath)
    requires Plain(before) && "" in segs && WellFormed(nodes) && q in nodes && q != []
    ensures var j, rules := RunJudge(before + [Rule(segs, a)], mode), before + [Rule(segs, a)];
            (j.keeps(q) <==> KeptByRules(rules, mode, q)) && !j.aborts(q)
  {
    var asked := JudgeOf(Build(before + [Rule(segs, a)] + [KEEP_RULE]), mode);
    var d := Decider(asked, q);
    if d != q { AncestorsAreFolders(nodes, d, q); }
    NamesOnPath(nodes, q);
    NamesOnPath(nodes, d);
    assert IsPath(d) && IsPath(q);
    AnsweredAnyway(before, segs, a, d, q);
    AnsweredAnyway(before, segs, a, q, q);
  }

  // Below a path that is not entered the rules say what they say about it.
  lemma VerdictAbove(before: seq<Rule>, d: FsPath, q: FsPath)
    requires Plain(before) && IsPath(d) && IsPath(q) && d <= q
    ensures GetAction(Build(before), d) == Done(ActionResult(Verdict(before, d), RuleOrder.Descends(before, d)))
    ensures d == q || !RuleOrder.Descends(before, d) ==> Verdict(before, q) == Verdict(before, d)
  {
    RuleOrder.LastRuleWins(before, d);
    RuleOrder.LastRuleWins(before, q);
    if !RuleOrder.Descends(before, d) {
      RuleOrder.BuildShaped(before);
      RuleOrder.NoDescendIsFinal(Build(before), d, q[|d|..]);
      assert q == d + q[|d|..];
    }
  }

  lemma EmptyRulesClean(before: seq<Rule>, segs: seq<string>, a: Actions, mode: Mode, nodes: Nodes)
    requires Plain(before) && "" in segs && WellFormed(nodes)
    ensures CleansByRules(before + [Rule(segs, a)], mode, nodes)
  {
    var rules := before + [Rule(segs, a)];
    forall q | q in nodes && q != []
      ensures (RunJudge(rules, mode).keeps(q) <==> KeptByRules(rules, mode, q)) && !RunJudge(rules, mode).aborts(q)
    {
      JudgedAnyway(before, segs, a, mode, nodes, q);
    }
    CleansIfJudged(rules, mode, nodes);
  }

  // ---------------------------------------------------------------- exactly

  // What the parser hands on are such segments.
  lemma SplitGivesSegments(text: string)
    ensures InnerStars.SplitSegments(Split(text, '/'))
  {
    JoinOfSplit(text, '/');
    forall s | s in Split(text, '/') ensures NoSlash(s) {
      assert '/' !in s;
      forall i | 0 <= i < |s| ensures s[i] != '/' { assert s[i] in s; }
    }
  }

  // A last rule is honoured by the cleanup of every folder behind every plain file, whatever its actions and the
  // mode, if and only if "**" stands in it at the end only, it begins with ".keep", or it has an empty segment.
  lemma HonouredExactly(segs: seq<string>)
    requires InnerStars.SplitSegments(segs)
    ensures StarsLast(segs) || segs[0] == ".keep" || "" in segs <==>
            forall before, a, mode, nodes :: Plain(before) && WellFormed(nodes) ==>
              CleansByRules(before + [Rule(segs, a)], mode, nodes)
  {
    if StarsLast(segs) || segs[0] == ".keep" || "" in segs {
      forall before, a, mode, nodes | Plain(before) && WellFormed(nodes)
        ensures CleansByRules(before + [Rule(segs, a)], mode, nodes)
      {
        if StarsLast(segs) {
          CleanedByRules(before + [Rule(segs, a)], mode, nodes);
        } else if "" in segs {
          EmptyRulesClean(before, segs, a, mode, nodes);
        } else {
          KeepRulesClean(before, segs, a, mode, nodes);
        }
      }
    } else {
      InnerStarLoses(segs);
      assert Plain([Rule(["**"], Actions(Delete, Keep))]);
    }
  }

  // ---------------------------------------------------------------- the enforced rule, behind any rules at all

  lemma KeepJudged(rules: seq<Rule>, mode: Mode, nodes: Nodes, q: FsPath)
    requires (forall r :: r in rules ==> r.segs != []) && WellFormed(nodes) && q in nodes && q != [] && q[0] == ".keep"
    ensures mode == Base ==> RunJudge(rules, mode).keeps(q)
    ensures mode == User && !AbortsBelow(RunJudge(rules, mode), nodes, []) ==> !RunJudge(rules, mode).keeps(q)
  {
    var j, asked := RunJudge(rules, mode), JudgeOf(Build(rules + [KEEP_RULE]), mode);
    var d := Decider(asked, q);
    if d != q { AncestorsAreFolders(nodes, d, q); }
    NamesOnPath(nodes, d);
    assert d[0] == q[0] && IsPath(d);
    NameRule(rules, ".keep", KEEP_RULE.actions, d);
    DeciderOfDecider(asked, q);
    assert j.aborts(d) <==> asked.aborts(d);
    assert d in nodes && [] < d;
  }

  lemma {:induction false} DeciderOfDecider(j: Judge, p: FsPath)
    ensures Decider(j, Decider(j, p)) == Decider(j, p)
    decreases |p|
  {
    if p != [] { DeciderOfDecider(j, Parent(p)); }
  }

  // Whatever the file holds, and wherever a lookup may abort, base cleanup leaves ".keep" and all below it alone;
  // user cleanup, if it comes to its end, leaves none of it.
  lemma KeepFileAlways(rules: seq<Rule>, mode: Mode, nodes: Nodes, p: FsPath)
    requires (forall r :: r in rules ==> r.segs != []) && WellFormed(nodes) && p in nodes && p != [] && p[0] == ".keep"
    ensures mode == Base ==> p in CleanedBelow(RunJudge(rules, mode), nodes, [])
    ensures mode == User && !AbortsBelow(RunJudge(rules, mode), nodes, []) ==>
              p !in CleanedBelow(RunJudge(rules, mode), nodes, [])
  {
    var j := RunJudge(rules, mode);
    forall q | q in nodes && p <= q
      ensures mode == Base ==> j.keeps(q)
      ensures mode == User && !AbortsBelow(j, nodes, []) ==> !j.keeps(q)
    {
      assert q[0] == p[0];
      KeepJudged(rules, mode, nodes, q);
    }
    assert p <= p && [] < p;
  }
}
