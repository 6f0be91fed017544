// The cleanup of a home folder (apply_keep): a recursive rewrite of a folder tree that trusts the rule graph.
module Cleanup {
  import opened Wrappers
  import opened DecisionTree
  import opened RuleText
  import opened FolderTree
  import Graphs = DecisionGraph
  import RuleOrder

  datatype Mode = Base | User

  function ActionOf(mode: Mode, actions: Actions): FileAction {
    match mode case Base => actions.base case User => actions.user
  }

  function Answer(graph: seq<Tree>, p: FsPath): ActionResult {
    var found := GetAction(graph, p);
    if found.Done? then found.result else FALLBACK
  }

  // What the traversal asks about a path. Where a lookup aborts, the path counts as kept: nothing is removed any more.
  ghost function JudgeOf(graph: seq<Tree>, mode: Mode): Judge {
    Judge(p => ActionOf(mode, Answer(graph, p).actions) == Keep,
          p => Answer(graph, p).descend,
          p => GetAction(graph, p).Panic?)
  }

  // Graphs built from rules with "**" at the end only are steady.
  lemma ShapedIsSteady(graph: seq<Tree>, mode: Mode)
    requires ShapedAll(graph)
    ensures Steady(JudgeOf(graph, mode))
    ensures forall p :: p != [] ==> !JudgeOf(graph, mode).aborts(p)
  {
    var j := JudgeOf(graph, mode);
    forall p | p != [] ensures !j.aborts(p) { RuleOrder.LookupTotal(graph, p); }
    forall c, q | c != [] && !j.descend(c) && c <= q ensures j.keeps(q) == j.keeps(c) && !j.descend(q) {
      RuleOrder.LookupTotal(graph, c);
      RuleOrder.NoDescendIsFinal(graph, c, q[|c|..]);
      assert q == c + q[|c|..];
    }
  }

  // ---------------------------------------------------------------- traverse

  // The graph, whose nodes no file system call touches, holds these trees.
  ghost predicate Stands(graph: Graphs.DecisionGraph, trees: seq<Tree>, fs: FileTree)
    reads graph, graph.root, graph.root.Repr
  {
    graph.Valid() && graph.Model() == trees && fs !in graph.root.Repr
  }

  // A folder the traversal gets to.
  predicate Entered(j: Judge, dir: FsPath) {
    dir == [] || j.descend(dir)
  }

  // Looking a path up in the graph.
  method Ask(graph: Graphs.DecisionGraph, ghost trees: seq<Tree>, mode: Mode, fs: FileTree, c: FsPath, ghost j: Judge)
      returns (found: Outcome)
    requires Stands(graph, trees, fs) && j == Settled(JudgeOf(trees, mode)) && WellFormed(fs.nodes)
    requires c != [] && c in fs.nodes && Entered(j, Parent(c))
    ensures Ready(j, fs.nodes)
    ensures found.Panic? <==> j.aborts(c)
    ensures found.Done? ==> (j.keeps(c) <==> ActionOf(mode, found.result.actions) == Keep)
    ensures found.Done? ==> (j.descend(c) <==> found.result.descend)
  {
    NamesOnPath(fs.nodes, c);
    SplitOfJoin(c, '/');
    SettledIsSteady(JudgeOf(trees, mode));
    AskedItself(JudgeOf(trees, mode), c);
    found := graph.GetAction(Join(c, '/'));
  }

  // The body of the loop over a folder's entries; log collects the paths reported as deleted. A dry run reports
  // what the real run reports.
  method CleanEntry(graph: Graphs.DecisionGraph, ghost trees: seq<Tree>, mode: Mode, dryrun: bool,
                    fs: FileTree, c: FsPath, ghost j: Judge, ghost height: nat)
      returns (empty: bool, log: set<FsPath>, aborted: bool)
    requires Stands(graph, trees, fs) && j == Settled(JudgeOf(trees, mode)) && WellFormed(fs.nodes)
    requires c != [] && c in fs.nodes && Entered(j, Parent(c)) && NoDeeper(fs.nodes, |c| + height)
    modifies fs
    ensures CleanedUpTo(old(fs.nodes), dryrun, fs.nodes, Cleaned(j, old(fs.nodes), c),
                        AbortsAt(j, old(fs.nodes), c), aborted)
    ensures !aborted ==> (empty <==> ReportsEmptyAt(j, old(fs.nodes), c)) && log == AttemptsAt(j, old(fs.nodes), c)
    decreases height, 4
  {
    var found := Ask(graph, trees, mode, fs, c, j);
    if found.Panic? { return false, {}, true; }
    var action := match mode case Base => found.result.actions.base case User => found.result.actions.user;
    if fs.nodes[c] == Dir && found.result.descend {
      empty, log, aborted := CleanFolder(graph, trees, mode, action, dryrun, fs, c, j, height);
    } else {
      ghost var before := fs.nodes;
      WholeAborts(j, before, c);
      empty, log := TakeWhole(action, dryrun, fs, c, j);
      EntryCleaned(j, before, dryrun, fs.nodes, c);
      aborted := false;
    }
  }

  // A folder that is looked into.
  method CleanFolder(graph: Graphs.DecisionGraph, ghost trees: seq<Tree>, mode: Mode, action: FileAction, dryrun: bool,
                     fs: FileTree, c: FsPath, ghost j: Judge, ghost height: nat)
      returns (empty: bool, log: set<FsPath>, aborted: bool)
    requires Stands(graph, trees, fs) && j == Settled(JudgeOf(trees, mode)) && WellFormed(fs.nodes)
    requires c != [] && c in fs.nodes && fs.nodes[c] == Dir && j.descend(c) && !j.aborts(c)
    requires NoDeeper(fs.nodes, |c| + height)
    requires j.keeps(c) <==> action == Keep
    modifies fs
    ensures CleanedUpTo(old(fs.nodes), dryrun, fs.nodes, Cleaned(j, old(fs.nodes), c),
                        AbortsAt(j, old(fs.nodes), c), aborted)
    ensures !aborted ==> (empty <==> ReportsEmptyAt(j, old(fs.nodes), c)) && log == AttemptsAt(j, old(fs.nodes), c)
    decreases height, 3
  {
    ghost var before := fs.nodes;
    empty, log, aborted := Traverse(graph, trees, mode, dryrun, fs, c, j, height);
    if aborted {
      EntryAborted(j, before, dryrun, fs.nodes, c);
      return;
    }
    LookedIntoExact(j, before, c);
    LookedIntoAborts(j, before, c);
    if empty && action == Delete {
      log := log + {c};
      if !dryrun { fs.RemoveDir(c); }
    }
    EntryCleaned(j, before, dryrun, fs.nodes, c);
  }

  // Entries that are not looked into.
  method TakeWhole(action: FileAction, dryrun: bool, fs: FileTree, c: FsPath, ghost j: Judge)
      returns (empty: bool, log: set<FsPath>)
    requires Ready(j, fs.nodes) && c != [] && c in fs.nodes && (fs.nodes[c] == File || !j.descend(c))
    requires j.keeps(c) == (action == Keep)
    modifies fs
    ensures fs.nodes == if dryrun then old(fs.nodes) else Cleaned(j, old(fs.nodes), c)
    ensures empty <==> ReportsEmptyAt(j, old(fs.nodes), c)
    ensures log == AttemptsAt(j, old(fs.nodes), c)
  {
    TakenWhole(j, fs.nodes, c);
    if action == Delete {
      if !dryrun {
        if fs.nodes[c] == Dir { fs.RemoveDirAll(c); } else { RemoveOne(j, fs, c); }
      }
      return true, {c};
    }
    return false, {};
  }

  method RemoveOne(ghost j: Judge, fs: FileTree, c: FsPath)
    requires Ready(j, fs.nodes) && c in fs.nodes && fs.nodes[c] == File
    modifies fs
    ensures fs.nodes == map p | p in old(fs.nodes) && !(c <= p) :: old(fs.nodes)[p]
  {
    forall q | q in fs.nodes && c <= q ensures q == c { FileAlone(fs.nodes, c, q); }
    fs.RemoveFile(c);
  }

  // traverse
  method Traverse(graph: Graphs.DecisionGraph, ghost trees: seq<Tree>, mode: Mode, dryrun: bool,
                  fs: FileTree, cur: FsPath, ghost j: Judge, ghost height: nat)
      returns (empty: bool, log: set<FsPath>, aborted: bool)
    requires Stands(graph, trees, fs) && j == Settled(JudgeOf(trees, mode)) && WellFormed(fs.nodes)
    requires Entered(j, cur) && NoDeeper(fs.nodes, |cur| + height)
    modifies fs
    ensures CleanedUpTo(old(fs.nodes), dryrun, fs.nodes, CleanedBelow(j, old(fs.nodes), cur),
                        AbortsBelow(j, old(fs.nodes), cur), aborted)
    ensures !aborted ==> (empty <==> ReportsEmpty(j, old(fs.nodes), cur)) && log == AttemptsBelow(j, old(fs.nodes), cur)
    decreases height, 2
  {
    ghost var start := fs.nodes;
    var names := fs.ReadDir(cur);
    NothingDone(j, start, cur, dryrun);
    empty, log, aborted := CleanNames(graph, trees, mode, dryrun, fs, cur, names, j, height, start);
    if !aborted { AllDone(j, start, cur, names, dryrun, fs.nodes, empty, log); }
  }

  // Its loop.
  method CleanNames(graph: Graphs.DecisionGraph, ghost trees: seq<Tree>, mode: Mode, dryrun: bool,
                    fs: FileTree, cur: FsPath, names: set<string>,
                    ghost j: Judge, ghost height: nat, ghost start: Nodes)
      returns (empty: bool, log: set<FsPath>, aborted: bool)
    requires Stands(graph, trees, fs) && j == Settled(JudgeOf(trees, mode))
    requires Entered(j, cur) && NoDeeper(start, |cur| + height) && forall n :: n in names ==> cur + [n] in start
    requires SoFar(j, start, cur, {}, dryrun, fs.nodes, true, {})
    modifies fs
    ensures !aborted ==> SoFar(j, start, cur, names, dryrun, fs.nodes, empty, log)
    ensures aborted ==>
              CleanedUpTo(start, dryrun, fs.nodes, CleanedBelow(j, start, cur), AbortsBelow(j, start, cur), true)
    decreases height, 1
  {
    empty, log, aborted := true, {}, false;
    var done := {};
    while done != names
      invariant done <= names && SoFar(j, start, cur, done, dryrun, fs.nodes, empty, log)
      decreases names - done
    {
      SomeLeft(names, done);
      var name :| name in names && name !in done;
      empty, log, aborted := CleanNext(graph, trees, mode, dryrun, fs, cur, name, empty, log, j, height, start, done);
      if aborted { return; }
      done := done + {name};
    }
  }

  lemma SomeLeft<T>(all: set<T>, done: set<T>)
    requires done <= all && done != all
    ensures exists x :: x in all && x !in done
  {
  }

  // One round of its loop.
  method CleanNext(graph: Graphs.DecisionGraph, ghost trees: seq<Tree>, mode: Mode, dryrun: bool,
                   fs: FileTree, cur: FsPath, name: string, emptySoFar: bool, logSoFar: set<FsPath>,
                   ghost j: Judge, ghost height: nat, ghost start: Nodes, ghost done: set<string>)
      returns (empty: bool, log: set<FsPath>, aborted: bool)
    requires Stands(graph, trees, fs) && j == Settled(JudgeOf(trees, mode))
    requires Entered(j, cur) && NoDeeper(start, |cur| + height)
    requires SoFar(j, start, cur, done, dryrun, fs.nodes, emptySoFar, logSoFar)
    requires name !in done && cur + [name] in start
    modifies fs
    ensures !aborted ==> SoFar(j, start, cur, done + {name}, dryrun, fs.nodes, empty, log)
    ensures aborted ==>
              CleanedUpTo(start, dryrun, fs.nodes, CleanedBelow(j, start, cur), AbortsBelow(j, start, cur), true)
    decreases height, 0
  {
    ghost var mid := fs.nodes;
    NextThere(j, start, cur, done, name, dryrun, mid, emptySoFar, logSoFar, |cur| + height);
    empty, log, aborted := CleanEntry(graph, trees, mode, dryrun, fs, cur + [name], j, height - 1);
    if aborted {
      NextAborts(j, start, cur, done, name, dryrun, mid, emptySoFar, logSoFar, fs.nodes);
    } else {
      NextDone(j, start, cur, done, name, dryrun, mid, emptySoFar, logSoFar);
      empty, log := emptySoFar && empty, logSoFar + log;
    }
  }

  // ---------------------------------------------------------------- the whole run

  // What the file, with the enforced rule behind it, says about a path.
  predicate KeptByRules(rules: seq<Rule>, mode: Mode, path: FsPath) {
    ActionOf(mode, Verdict(rules + [KEEP_RULE], path)) == Keep
  }

  // The surviving entries: the cleaned folder, and whatever is kept or holds something kept.
  ghost predicate Remains(rules: seq<Rule>, mode: Mode, nodes: Nodes, p: FsPath) {
    p in nodes && (p == [] || exists q :: q in nodes && p <= q && KeptByRules(rules, mode, q))
  }

  // How a run decides: through the graph of the rules and the enforced one.
  ghost function RunJudge(rules: seq<Rule>, mode: Mode): Judge
    requires forall r :: r in rules ==> r.segs != []
  {
    Settled(JudgeOf(Build(rules + [KEEP_RULE]), mode))
  }

  // The cleanup comes to its end and leaves what the rules say.
  ghost predicate CleansByRules(rules: seq<Rule>, mode: Mode, nodes: Nodes)
    requires forall r :: r in rules ==> r.segs != []
  {
    var j := RunJudge(rules, mode);
    !AbortsBelow(j, nodes, []) && forall p :: p in CleanedBelow(j, nodes, []) <==> Remains(rules, mode, nodes, p)
  }

  lemma JudgedByRules(rules: seq<Rule>, mode: Mode, nodes: Nodes, q: FsPath)
    requires Plain(rules) && WellFormed(nodes) && q in nodes && q != []
    ensures RunJudge(rules, mode).keeps(q) <==> KeptByRules(rules, mode, q)
    ensures !RunJudge(rules, mode).aborts(q)
  {
    var graph := Build(rules + [KEEP_RULE]);
    NamesOnPath(nodes, q);
    RuleOrder.LastRuleWins(rules + [KEEP_RULE], q);
    RuleOrder.BuildShaped(rules + [KEEP_RULE]);
    ShapedIsSteady(graph, mode);
    SteadyIsSettled(JudgeOf(graph, mode), q);
  }

  // The same for each of the two layers: what its own action keeps, and the folders above it.
  ghost predicate RemainsInBase(rules: seq<Rule>, nodes: Nodes, p: FsPath) {
    p in nodes && (p == [] || exists q :: q in nodes && p <= q && Verdict(rules + [KEEP_RULE], q).base == Keep)
  }

  ghost predicate RemainsInUser(rules: seq<Rule>, nodes: Nodes, p: FsPath) {
    p in nodes && (p == [] || exists q :: q in nodes && p <= q && Verdict(rules + [KEEP_RULE], q).user == Keep)
  }

  lemma RemainsByMode(rules: seq<Rule>, nodes: Nodes)
    ensures forall p :: Remains(rules, Base, nodes, p) <==> RemainsInBase(rules, nodes, p)
    ensures forall p :: Remains(rules, User, nodes, p) <==> RemainsInUser(rules, nodes, p)
  {
    forall q
      ensures KeptByRules(rules, Base, q) <==> Verdict(rules + [KEEP_RULE], q).base == Keep
      ensures KeptByRules(rules, User, q) <==> Verdict(rules + [KEEP_RULE], q).user == Keep
    {
    }
  }

  // Judging each entry by the rules is all it takes.
  lemma CleansIfJudged(rules: seq<Rule>, mode: Mode, nodes: Nodes)
    requires forall r :: r in rules ==> r.segs != []
    requires forall q :: q in nodes && q != [] ==>
               (RunJudge(rules, mode).keeps(q) <==> KeptByRules(rules, mode, q)) && !RunJudge(rules, mode).aborts(q)
    ensures CleansByRules(rules, mode, nodes)
  {
    var j := RunJudge(rules, mode);
    forall p | p in nodes && p != []
      ensures Survives(j, nodes, p) <==> exists q :: q in nodes && p <= q && KeptByRules(rules, mode, q)
    {
      assert forall q :: q in nodes && p <= q ==> q != [];
    }
  }

  lemma CleanedByRules(rules: seq<Rule>, mode: Mode, nodes: Nodes)
    requires Plain(rules) && WellFormed(nodes)
    ensures CleansByRules(rules, mode, nodes)
  {
    forall q | q in nodes && q != []
      ensures (RunJudge(rules, mode).keeps(q) <==> KeptByRules(rules, mode, q)) && !RunJudge(rules, mode).aborts(q)
    {
      JudgedByRules(rules, mode, nodes, q);
    }
    CleansIfJudged(rules, mode, nodes);
  }

  // parse_rules followed by apply_keep. A file that does not parse ends the program before anything is touched.
  method Run(lines: seq<string>, mode: Mode, dryrun: bool, fs: FileTree)
      returns (failed: Option<LineError>, log: set<FsPath>, aborted: bool)
    requires WellFormed(fs.nodes)
    modifies fs
    ensures failed == if FileRules(lines).Err? then Some(FileRules(lines).error) else None
    ensures failed.Some? ==> fs.nodes == old(fs.nodes) && log == {} && !aborted
    ensures failed.None? ==>
              var j := RunJudge(FileRules(lines).value, mode);
              CleanedUpTo(old(fs.nodes), dryrun, fs.nodes, CleanedBelow(j, old(fs.nodes), []),
                     AbortsBelow(j, old(fs.nodes), []), aborted) &&
              (!aborted ==> log == AttemptsBelow(j, old(fs.nodes), []))
    ensures failed.None? && Plain(FileRules(lines).value) ==> !aborted
    ensures failed.None? && Plain(FileRules(lines).value) && !dryrun && mode == Base ==>
              forall p :: p in fs.nodes <==> RemainsInBase(FileRules(lines).value, old(fs.nodes), p)
    ensures failed.None? && Plain(FileRules(lines).value) && !dryrun && mode == User ==>
              forall p :: p in fs.nodes <==> RemainsInUser(FileRules(lines).value, old(fs.nodes), p)
  {
    log, aborted := {}, false;
    var graph;
    graph, failed := Graphs.ParseRules(lines);
    if failed.Some? { return; }
    ghost var rules := FileRules(lines).value;
    if Plain(rules) {
      CleanedByRules(rules, mode, fs.nodes);
      RemainsByMode(rules, fs.nodes);
    }
    ghost var trees, j := Build(rules + [KEEP_RULE]), RunJudge(rules, mode);
    var empty;
    empty, log, aborted := Traverse(graph, trees, mode, dryrun, fs, [], j, Depth(fs.nodes.Keys));
  }

  // Base cleanup never touches ".keep" or anything below it, and user cleanup removes all of it.
  lemma KeepFileEnforced(rules: seq<Rule>, mode: Mode, nodes: Nodes, p: FsPath)
    requires Plain(rules) && WellFormed(nodes) && p in nodes && p != [] && p[0] == ".keep"
    ensures Remains(rules, mode, nodes, p) <==> mode == Base
  {
    forall q | q in nodes && p <= q ensures KeptByRules(rules, mode, q) <==> mode == Base {
      NamesOnPath(nodes, q);
      assert q[0] == p[0];
      KeepRuleEnforced(rules, q);
    }
    assert p <= p;
  }

  // A second run finds nothing left to do.
  lemma CleanupIdempotent(j: Judge, nodes: Nodes, top: FsPath)
    ensures CleanedBelow(j, CleanedBelow(j, nodes, top), top) == CleanedBelow(j, nodes, top)
  {
    var after := CleanedBelow(j, nodes, top);
    forall p | p in after && top < p ensures Survives(j, after, p) {
      var q :| q in nodes && p <= q && j.keeps(q);
      assert top <= q && Survives(j, nodes, q);
      assert q in after;
    }
  }

  // A folder that ends up empty is reported empty, so its removal is tried.
  lemma EmptyIsReported(j: Judge, nodes: Nodes, dir: FsPath)
    requires !exists p :: p in CleanedBelow(j, nodes, dir) && dir < p
    ensures ReportsEmpty(j, nodes, dir)
  {
    forall p | dir < p ensures !Blocks(j, nodes, p) {
      assert p in nodes && p <= p && j.keeps(p) ==> Survives(j, nodes, p);
      assert p in nodes && Survives(j, nodes, p) ==> p in CleanedBelow(j, nodes, dir);
    }
  }

  // Without any rules, base cleanup leaves ".keep" only, and user cleanup everything else.
  lemma WithoutRules(nodes: Nodes)
    requires WellFormed(nodes)
    ensures CleansByRules([], Base, nodes) && CleansByRules([], User, nodes)
    ensures forall p :: p in CleanedBelow(RunJudge([], Base), nodes, []) <==>
                        p in nodes && (p == [] || p[0] == ".keep")
    ensures forall p :: p in CleanedBelow(RunJudge([], User), nodes, []) <==>
                        p in nodes && (p == [] || p[0] != ".keep")
  {
    CleanedByRules([], Base, nodes);
    CleanedByRules([], User, nodes);
    RemainsByMode([], nodes);
    forall p | p in nodes && p != []
      ensures RemainsInBase([], nodes, p) <==> p[0] == ".keep"
      ensures RemainsInUser([], nodes, p) <==> p[0] != ".keep"
    {
      forall q | q in nodes && p <= q
        ensures Verdict([] + [KEEP_RULE], q) == if p[0] == ".keep" then Actions(Keep, Delete) else Actions(Delete, Keep)
      {
        NamesOnPath(nodes, q);
        KeepRuleEnforced([], q);
        assert q[0] == p[0];
      }
      assert p <= p;
    }
  }
}
