// What the rule graph of keepEngine computes, on values: the walk of get_action, the rewriting of add_rule,
// and the ordered rule list both must agree with.
module DecisionTree {
  import opened Wrappers
  import opened Glob

  datatype FileAction = Delete | Keep

  datatype Actions = Actions(base: FileAction, user: FileAction)

  datatype ActionResult = ActionResult(actions: Actions, descend: bool)

  // Single: SingleSegmentNode, matched through its regular expression. Multi: MultiSegmentNode.
  datatype Kind = Single | Multi

  datatype Tree = Tree(kind: Kind, pattern: string, actions: Option<Actions>, children: seq<Tree>)

  // A lookup may index past the end of the path, which aborts the program.
  datatype Outcome = Panic | Done(result: ActionResult)

  // ---------------------------------------------------------------- get_action

  function Lookup(t: Tree, path: seq<string>, r: ActionResult): Outcome
    decreases t, 0, 0
  {
    match t.kind
    case Single =>
      if path == [] then Panic
      else if !SegMatches(t.pattern, path[0]) then Done(r)
      else
        var r := r.(actions := t.actions.GetOr(r.actions));
        if |path| == 1 then Done(r.(descend := r.descend || t.children != []))
        else LookupAll(t.children, path[1..], r)
    case Multi =>
      var r := r.(actions := t.actions.GetOr(r.actions));
      if t.children == [] then Done(r)
      else LookupOffsets(t.children, path, |t.children| - 1, r.(descend := r.descend || |path| == 1))
  }

  // The children in order, each overwriting the shared result.
  function LookupAll(ts: seq<Tree>, path: seq<string>, r: ActionResult): Outcome
    decreases ts, 1, 0
  {
    if ts == [] then Done(r)
    else
      var before := LookupAll(ts[..|ts| - 1], path, r);
      if before.Panic? then Panic else Lookup(ts[|ts| - 1], path, before.result)
  }

  // The offsets 1 .. end (exclusive) tried by MultiSegmentNode; its end is the number of children minus one.
  function LookupOffsets(ts: seq<Tree>, path: seq<string>, end: nat, r: ActionResult): Outcome
    decreases ts, 2, end
  {
    if end <= 1 then Done(r)
    else
      var before := LookupOffsets(ts, path, end - 1, r);
      if before.Panic? || end - 1 > |path| then Panic
      else LookupAll(ts, path[end - 1..], before.result)
  }

  const FALLBACK := ActionResult(Actions(Keep, Keep), false)

  // DecisionGraph::get_action
  function GetAction(graph: seq<Tree>, path: seq<string>): Outcome {
    LookupAll(graph, path, FALLBACK)
  }

  // ---------------------------------------------------------------- add_rule

  predicate HasDoubleStar(s: string) {
    exists i :: 0 <= i < |s| - 1 && s[i] == '*' && s[i + 1] == '*'
  }

  // What node_from_segment_pattern accepts.
  predicate ValidSegment(s: string) {
    s == "**" || !HasDoubleStar(s)
  }

  predicate ValidSegments(segs: seq<string>) {
    forall s :: s in segs ==> ValidSegment(s)
  }

  function NewNode(segment: string, actions: Option<Actions>): Tree {
    Tree(if segment == "**" then Multi else Single, segment, actions, [])
  }

  // Vec::retain with the test pattern() != s
  function Without(ts: seq<Tree>, s: string): seq<Tree> {
    if ts == [] then []
    else Without(ts[..|ts| - 1], s) + if ts[|ts| - 1].pattern == s then [] else [ts[|ts| - 1]]
  }

  // The children after an optional new node has been appended for an inner segment.
  function Extended(ts: seq<Tree>, s: string): seq<Tree> {
    if ts != [] && ts[|ts| - 1].pattern == s then ts else ts + [NewNode(s, None)]
  }

  // traverse_add, for segments that can all be turned into nodes
  function Grow(ts: seq<Tree>, segs: seq<string>, actions: Actions): seq<Tree>
    requires segs != []
    decreases |segs|, 2
  {
    if |segs| == 1 then Without(ts, segs[0]) + [NewNode(segs[0], Some(actions))]
    else GrowChildren(Extended(ts, segs[0]), segs, actions)
  }

  // The rest of the rule goes below every child with the pattern of the first segment.
  function GrowChildren(all: seq<Tree>, segs: seq<string>, actions: Actions): (grown: seq<Tree>)
    requires |segs| > 1
    ensures |grown| == |all|
    decreases |segs|, 1
  {
    seq(|all|, i requires 0 <= i < |all| => GrowChild(all[i], segs, actions))
  }

  function GrowChild(t: Tree, segs: seq<string>, actions: Actions): Tree
    requires |segs| > 1
    decreases |segs|, 0
  {
    if t.pattern == segs[0] then t.(children := Grow(t.children, segs[1..], actions)) else t
  }

  // ---------------------------------------------------------------- the rule list

  datatype Rule = Rule(segs: seq<string>, actions: Actions)

  const DEFAULT_ACTIONS := Actions(Delete, Keep)

  // DecisionGraph::new: the built-in rule is a single-segment node whose pattern text is "**".
  const EMPTY_GRAPH := [Tree(Single, "**", Some(DEFAULT_ACTIONS), [])]

  function Build(rules: seq<Rule>): seq<Tree>
    requires forall r :: r in rules ==> r.segs != []
  {
    if rules == [] then EMPTY_GRAPH
    else
      var last := rules[|rules| - 1];
      Grow(Build(rules[..|rules| - 1]), last.segs, last.actions)
  }

  // A pattern matches a path when its segments match a leading part of it; "**" takes one or more segments.
  predicate Matches(segs: seq<string>, path: seq<string>)
    decreases |segs|
  {
    if segs == [] then true
    else if segs[0] == "**" then exists k :: 1 <= k <= |path| && Matches(segs[1..], path[k..])
    else path != [] && SegMatches(segs[0], path[0]) && Matches(segs[1..], path[1..])
  }

  // The documented meaning of a rule list: the last matching rule decides, the built-in rule comes first.
  function Verdict(rules: seq<Rule>, path: seq<string>): Actions {
    if rules == [] then DEFAULT_ACTIONS
    else if Matches(rules[|rules| - 1].segs, path) then rules[|rules| - 1].actions
    else Verdict(rules[..|rules| - 1], path)
  }

  // "**" only as the last segment.
  predicate StarsLast(segs: seq<string>) {
    segs != [] && forall i :: 0 <= i < |segs| - 1 ==> segs[i] != "**"
  }

  predicate Plain(rules: seq<Rule>) {
    forall r :: r in rules ==> StarsLast(r.segs)
  }

  predicate IsPath(path: seq<string>) {
    path != [] && forall s :: s in path ==> NoSlash(s)
  }

  // ---------------------------------------------------------------- trees that plain rules build

  // Nodes with the pattern text "**" are leaves, and every other node is a single-segment node.
  predicate Shaped(t: Tree)
    decreases t, 0
  {
    if t.pattern == "**" then t.children == [] else t.kind.Single? && ShapedAll(t.children)
  }

  predicate ShapedAll(ts: seq<Tree>)
    decreases ts, 1
  {
    forall i :: 0 <= i < |ts| ==> Shaped(ts[i])
  }

  // The actions the walk leaves behind, if it sets any.
  function Act(t: Tree, path: seq<string>): Option<Actions>
    requires path != []
    decreases t, 0
  {
    if t.kind.Multi? then t.actions
    else if !SegMatches(t.pattern, path[0]) then None
    else if |path| == 1 then t.actions
    else
      var below := ActAll(t.children, path[1..]);
      if below.Some? then below else t.actions
  }

  function ActAll(ts: seq<Tree>, path: seq<string>): Option<Actions>
    requires path != []
    decreases ts, 1
  {
    if ts == [] then None
    else
      var last := Act(ts[|ts| - 1], path);
      if last.Some? then last else ActAll(ts[..|ts| - 1], path)
  }

  // Whether the walk reaches an inner node exactly at the end of the path.
  predicate Reaches(t: Tree, path: seq<string>)
    requires path != []
    decreases t, 0
  {
    t.kind.Single? && SegMatches(t.pattern, path[0]) &&
    if |path| == 1 then t.children != [] else ReachesAll(t.children, path[1..])
  }

  predicate ReachesAll(ts: seq<Tree>, path: seq<string>)
    requires path != []
    decreases ts, 1
  {
    exists i :: 0 <= i < |ts| && Reaches(ts[i], path)
  }

  // On trees of this shape the walk is total and leaves exactly Act and Reaches.
  lemma {:induction false} LookupShaped(t: Tree, path: seq<string>, r: ActionResult)
    requires Shaped(t) && path != []
    ensures Lookup(t, path, r) == Done(ActionResult(Act(t, path).GetOr(r.actions), r.descend || Reaches(t, path)))
    decreases t, 0
  {
    if t.kind.Single? && |path| > 1 {
      LookupShapedAll(t.children, path[1..], r.(actions := t.actions.GetOr(r.actions)));
    }
  }

  lemma ReachesSnoc(init: seq<Tree>, last: Tree, path: seq<string>)
    requires path != []
    ensures ReachesAll(init + [last], path) <==> ReachesAll(init, path) || Reaches(last, path)
  {
    var ts := init + [last];
    assert forall i :: 0 <= i < |init| ==> init[i] == ts[i];
    assert ts[|init|] == last;
  }

  lemma {:induction false} LookupShapedAll(ts: seq<Tree>, path: seq<string>, r: ActionResult)
    requires ShapedAll(ts) && path != []
    ensures LookupAll(ts, path, r) ==
            Done(ActionResult(ActAll(ts, path).GetOr(r.actions), r.descend || ReachesAll(ts, path)))
    decreases ts, 1
  {
    if ts != [] {
      var init, last := ts[..|ts| - 1], ts[|ts| - 1];
      assert ts == init + [last];
      LookupShapedAll(init, path, r);
      var before := LookupAll(init, path, r).result;
      LookupShaped(last, path, before);
      ReachesSnoc(init, last, path);
    }
  }
}
