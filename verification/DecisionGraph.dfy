// The rule graph itself: nodes whose child vectors are changed in place, and lookups that overwrite a shared
// result. Every method is tied to the functions of module DecisionTree.
module DecisionGraph {
  import opened Wrappers
  import opened Glob
  import opened DecisionTree
  import opened RuleText
  import RuleOrder

  lemma {:induction false} PanicSpreads(ts: seq<Tree>, path: seq<string>, n: nat, r: ActionResult)
    requires n <= |ts|
    ensures LookupAll(ts[..n], path, r).Panic? ==> LookupAll(ts, path, r).Panic?
    decreases |ts|
  {
    if n < |ts| {
      var init := ts[..|ts| - 1];
      assert init[..n] == ts[..n];
      PanicSpreads(init, path, n, r);
    } else {
      assert ts[..n] == ts;
    }
  }

  lemma {:induction false} OffsetsPanicSpreads(ts: seq<Tree>, path: seq<string>, n: nat, end: nat, r: ActionResult)
    requires n <= end
    ensures LookupOffsets(ts, path, n, r).Panic? ==> LookupOffsets(ts, path, end, r).Panic?
    decreases end
  {
    if n < end { OffsetsPanicSpreads(ts, path, n, end - 1, r); }
  }

  // Where the trees stand that Without leaves.
  ghost function Places(ts: seq<Tree>, s: string): (at: seq<nat>)
    ensures |at| == |Without(ts, s)|
    ensures forall k :: 0 <= k < |at| ==> at[k] < |ts| && ts[at[k]] == Without(ts, s)[k]
    ensures forall j, k :: 0 <= j < k < |at| ==> at[j] < at[k]
  {
    if ts == [] then []
    else Places(ts[..|ts| - 1], s) + if ts[|ts| - 1].pattern == s then [] else [|ts| - 1]
  }

  lemma PlacesNext(ts: seq<Tree>, i: nat, s: string)
    requires i < |ts|
    ensures Places(ts[..i + 1], s) == Places(ts[..i], s) + if ts[i].pattern == s then [] else [i]
  {
    TakeSnoc(ts, i);
  }

  // The children while the first of them have grown.
  ghost function GrownUpTo(all: seq<Tree>, n: nat, segs: seq<string>, a: Actions): (grown: seq<Tree>)
    requires |segs| > 1
    ensures |grown| == |all|
  {
    seq(|all|, k requires 0 <= k < |all| => if k < n then GrowChild(all[k], segs, a) else all[k])
  }

  lemma GrownAtStart(all: seq<Tree>, segs: seq<string>, a: Actions)
    requires |segs| > 1
    ensures GrownUpTo(all, 0, segs, a) == all
  {
  }

  lemma GrownNext(all: seq<Tree>, n: nat, segs: seq<string>, a: Actions)
    requires |segs| > 1 && n < |all|
    ensures var grown := GrownUpTo(all, n, segs, a);
            grown[n] == all[n] &&
            GrownUpTo(all, n + 1, segs, a) ==
            if all[n].pattern == segs[0] then grown[n := GrowChild(all[n], segs, a)] else grown
  {
  }

  lemma GrownAtEnd(all: seq<Tree>, segs: seq<string>, a: Actions)
    requires |segs| > 1
    ensures GrownUpTo(all, |all|, segs, a) == GrowChildren(all, segs, a)
  {
  }

  // The &mut ActionResult that a lookup carries through the graph.
  class ResultCell {
    var actions: Actions
    var descend: bool

    constructor ()
      ensures Value() == FALLBACK
    {
      actions := Actions(Keep, Keep);
      descend := false;
    }

    function Value(): ActionResult
      reads this
    {
      ActionResult(actions, descend)
    }
  }

  // A node of either kind. The graph, which is a child vector and nothing else, is held as one more node whose
  // own pattern is never looked at.
  class Node {
    const kind: Kind
    const pattern: string
    const actions: Option<Actions>
    var children: seq<Node>

    ghost var model: Tree
    ghost var Repr: set<object>

    ghost predicate Valid()
      reads this, Repr
      decreases Repr
      ensures Valid() ==> this in Repr
    {
      && this in Repr
      && (forall i :: 0 <= i < |children| ==>
            children[i] in Repr && children[i].Repr <= Repr && this !in children[i].Repr && children[i].Valid())
      && (forall i, j :: 0 <= i < j < |children| ==> children[i].Repr !! children[j].Repr)
      && model.kind == kind && model.pattern == pattern && model.actions == actions
      && |model.children| == |children|
      && (forall i :: 0 <= i < |children| ==> model.children[i] == children[i].model)
      && ValidSegment(pattern)
    }

    constructor (kind: Kind, pattern: string, actions: Option<Actions>)
      requires ValidSegment(pattern)
      ensures Valid() && fresh(Repr) && model == Tree(kind, pattern, actions, [])
    {
      this.kind, this.pattern, this.actions, children := kind, pattern, actions, [];
      model := Tree(kind, pattern, actions, []);
      Repr := {this};
    }

    // get_action, dispatched on the kind of node
    method GetAction(path: seq<string>, result: ResultCell) returns (panicked: bool)
      requires Valid() && result !in Repr
      modifies result
      ensures panicked <==> Lookup(model, path, old(result.Value())).Panic?
      ensures !panicked ==> Lookup(model, path, old(result.Value())) == Done(result.Value())
      decreases Repr, 2
    {
      if kind.Single? {
        panicked := SingleGetAction(path, result);
      } else {
        panicked := MultiGetAction(path, result);
      }
    }

    // SingleSegmentNode::get_action
    method SingleGetAction(path: seq<string>, result: ResultCell) returns (panicked: bool)
      requires Valid() && result !in Repr && kind.Single?
      modifies result
      ensures panicked <==> Lookup(model, path, old(result.Value())).Panic?
      ensures !panicked ==> Lookup(model, path, old(result.Value())) == Done(result.Value())
      decreases Repr, 1
    {
      if path == [] { return true; }
      if !SegMatches(pattern, path[0]) { return false; }
      if actions.Some? { result.actions := actions.value; }
      if |path| == 1 {
        if |children| > 0 { result.descend := true; }
        return false;
      }
      panicked := GetActionOfChildren(path[1..], result);
    }

    // MultiSegmentNode::get_action
    method MultiGetAction(path: seq<string>, result: ResultCell) returns (panicked: bool)
      requires Valid() && result !in Repr && kind.Multi?
      modifies result
      ensures panicked <==> Lookup(model, path, old(result.Value())).Panic?
      ensures !panicked ==> Lookup(model, path, old(result.Value())) == Done(result.Value())
      decreases Repr, 1
    {
      if actions.Some? { result.actions := actions.value; }
      if |children| > 0 {
        if |path| == 1 { result.descend := true; }
        panicked := TryOffsets(path, result);
        return;
      }
      return false;
    }

    // The offsets a "**" node tries: 1 up to its number of children minus one, exclusive.
    method TryOffsets(path: seq<string>, result: ResultCell) returns (panicked: bool)
      requires Valid() && result !in Repr && |children| > 0
      modifies result
      ensures panicked <==> LookupOffsets(model.children, path, |children| - 1, old(result.Value())).Panic?
      ensures !panicked ==>
                LookupOffsets(model.children, path, |children| - 1, old(result.Value())) == Done(result.Value())
      decreases Repr, 0, 1
    {
      ghost var start := result.Value();
      var i := 1;
      while i < |children| - 1
        invariant 1 <= i && i <= (if |children| > 1 then |children| - 1 else 1)
        invariant LookupOffsets(model.children, path, i, start) == Done(result.Value())
      {
        OffsetsPanicSpreads(model.children, path, i + 1, |children| - 1, start);
        if i > |path| { return true; }
        panicked := GetActionOfChildren(path[i..], result);
        if panicked { return; }
        i := i + 1;
      }
      assert LookupOffsets(model.children, path, 0, start) == LookupOffsets(model.children, path, 1, start);
      return false;
    }

    // The loop over the children that every caller of get_action runs.
    method GetActionOfChildren(path: seq<string>, result: ResultCell) returns (panicked: bool)
      requires Valid() && result !in Repr
      modifies result
      ensures panicked <==> LookupAll(model.children, path, old(result.Value())).Panic?
      ensures !panicked ==> LookupAll(model.children, path, old(result.Value())) == Done(result.Value())
      decreases Repr, 0, 0
    {
      ghost var start := result.Value();
      for i := 0 to |children|
        invariant LookupAll(model.children[..i], path, start) == Done(result.Value())
      {
        TakeSnoc(model.children, i);
        PanicSpreads(model.children, path, i + 1, start);
        panicked := children[i].GetAction(path, result);
        if panicked { return; }
      }
      TakeFull(model.children);
      return false;
    }

    // Vec::retain: drops the children whose pattern is s.
    method Retain(s: string)
      requires Valid()
      modifies this
      ensures Valid() && Repr == old(Repr)
      ensures model == old(model).(children := Without(old(model.children), s))
    {
      ChildPatterns();
      var kept, at := Kept(children, model.children, s);
      ghost var models := Without(model.children, s);
      forall k | 0 <= k < |kept|
        ensures kept[k] in Repr && kept[k].Repr <= Repr && this !in kept[k].Repr && kept[k].Valid()
        ensures kept[k].model == models[k]
      {
        assert kept[k] == children[at[k]];
      }
      forall j, k | 0 <= j < k < |kept| ensures kept[j].Repr !! kept[k].Repr {
        assert children[at[j]].Repr !! children[at[k]].Repr;
      }
      SetChildren(kept, models, Repr);
    }

    // Assigning another vector of separate child trees.
    method SetChildren(nodes: seq<Node>, ghost models: seq<Tree>, ghost repr: set<object>)
      requires this in repr && ValidSegment(pattern)
      requires model.kind == kind && model.pattern == pattern && model.actions == actions
      requires forall i :: 0 <= i < |nodes| ==>
                 nodes[i] in repr && nodes[i].Repr <= repr && this !in nodes[i].Repr && nodes[i].Valid()
      requires forall i, j :: 0 <= i < j < |nodes| ==> nodes[i].Repr !! nodes[j].Repr
      requires |models| == |nodes| && forall i :: 0 <= i < |nodes| ==> models[i] == nodes[i].model
      modifies this
      ensures Valid() && children == nodes && model == old(model).(children := models) && Repr == repr
    {
      children, model, Repr := nodes, model.(children := models), repr;
    }

    // The nodes to be kept, with their places among all nodes.
    static method Kept(nodes: seq<Node>, ghost models: seq<Tree>, s: string)
        returns (kept: seq<Node>, ghost at: seq<nat>)
      requires |models| == |nodes| && forall i :: 0 <= i < |nodes| ==> models[i].pattern == nodes[i].pattern
      ensures at == Places(models, s) && |kept| == |at|
      ensures forall k :: 0 <= k < |kept| ==> kept[k] == nodes[at[k]]
    {
      kept, at := [], [];
      for i := 0 to |nodes|
        invariant at == Places(models[..i], s) && |kept| == |at|
        invariant forall k :: 0 <= k < |kept| ==> kept[k] == nodes[at[k]]
      {
        PlacesNext(models, i, s);
        if nodes[i].pattern != s { kept, at := kept + [nodes[i]], at + [i]; }
      }
      TakeFull(models);
    }

    lemma ChildPatterns()
      requires Valid()
      ensures |children| == |model.children|
      ensures forall i :: 0 <= i < |children| ==> model.children[i].pattern == children[i].pattern
    {
      forall i | 0 <= i < |children| ensures model.children[i].pattern == children[i].pattern {
        assert children[i].Valid();
      }
    }

    // node_from_segment_pattern, and pushing its result; fails on a segment with "**" beside other characters
    method PushNew(segment: string, actions: Option<Actions>) returns (ok: bool)
      requires Valid()
      modifies this
      ensures Valid() && fresh(Repr - old(Repr))
      ensures ok <==> ValidSegment(segment)
      ensures !ok ==> model == old(model)
      ensures ok ==> model == old(model).(children := old(model.children) + [NewNode(segment, actions)])
    {
      if segment != "**" && HasDoubleStar(segment) { return false; }
      var node := new Node(if segment == "**" then Multi else Single, segment, actions);
      SetChildren(children + [node], model.children + [node.model], Repr + node.Repr);
      return true;
    }

    // traverse_add: grows the child vectors of this node and of all same-pattern nodes below it, in place.
    method TraverseAdd(segs: seq<string>, newActions: Actions) returns (ok: bool)
      requires Valid() && segs != []
      modifies Repr
      ensures Valid() && fresh(Repr - old(Repr))
      ensures ok <==> ValidSegments(segs)
      ensures ok ==> model == old(model).(children := Grow(old(model.children), segs, newActions))
      decreases |segs|, 3
    {
      if |segs| == 1 {
        Retain(segs[0]);
        ok := PushNew(segs[0], Some(newActions));
        return;
      }
      ok := AppendUnlessLast(segs[0]);
      assert segs == [segs[0]] + segs[1..];
      if !ok { return; }
      ok := AddBelowAll(segs, newActions);
    }

    // An inner segment reuses the last child if that has the segment's pattern, and no other.
    method AppendUnlessLast(segment: string) returns (ok: bool)
      requires Valid()
      modifies this
      ensures Valid() && fresh(Repr - old(Repr))
      ensures ok <==> ValidSegment(segment)
      ensures ok ==> model == old(model).(children := Extended(old(model.children), segment))
    {
      assert |children| > 0 ==> children[|children| - 1].Valid();
      if |children| == 0 || children[|children| - 1].pattern != segment {
        ok := PushNew(segment, None);
      } else {
        ok := true;
      }
    }

    // The loop of traverse_add over the children with the pattern of the first segment.
    method AddBelowAll(segs: seq<string>, newActions: Actions) returns (ok: bool)
      requires Valid() && |segs| > 1 && |model.children| > 0 && model.children[|model.children| - 1].pattern == segs[0]
      modifies Repr
      ensures Valid() && fresh(Repr - old(Repr))
      ensures ok <==> ValidSegments(segs[1..])
      ensures ok ==> model == old(model).(children := GrowChildren(old(model.children), segs, newActions))
      decreases |segs|, 2
    {
      ghost var all := model.children;
      GrownAtStart(all, segs, newActions);
      var i := 0;
      while i < |children|
        invariant Valid() && fresh(Repr - old(Repr))
        invariant 0 <= i <= |children| == |all|
        invariant model == old(model).(children := GrownUpTo(all, i, segs, newActions))
        invariant i == |all| ==> ValidSegments(segs[1..])
      {
        ok := AddBelowAt(i, all, segs, newActions);
        if !ok { return; }
        i := i + 1;
      }
      GrownAtEnd(all, segs, newActions);
      return true;
    }

    // One round of that loop.
    method AddBelowAt(i: nat, ghost all: seq<Tree>, segs: seq<string>, newActions: Actions) returns (ok: bool)
      requires Valid() && |segs| > 1 && i < |children| == |all|
      requires model.children == GrownUpTo(all, i, segs, newActions)
      modifies Repr
      ensures Valid() && fresh(Repr - old(Repr)) && |children| == |all|
      ensures ok <==> (all[i].pattern == segs[0] ==> ValidSegments(segs[1..]))
      ensures ok ==> model == old(model).(children := GrownUpTo(all, i + 1, segs, newActions))
      decreases |segs|, 1
    {
      GrownNext(all, i, segs, newActions);
      ChildPatterns();
      if children[i].pattern != segs[0] { return true; }
      ok := AddBelow(i, segs, newActions);
    }

    // The recursive call of traverse_add on one child.
    method AddBelow(i: nat, segs: seq<string>, newActions: Actions) returns (ok: bool)
      requires Valid() && |segs| > 1 && i < |children| && children[i].pattern == segs[0]
      modifies Repr
      ensures Valid() && fresh(Repr - old(Repr)) && children == old(children)
      ensures ok <==> ValidSegments(segs[1..])
      ensures ok ==>
                var grown := GrowChild(old(model.children[i]), segs, newActions);
                model == old(model).(children := old(model.children)[i := grown])
      decreases |segs|, 0
    {
      var child := children[i];
      assert child.Valid();
      ok := child.TraverseAdd(segs[1..], newActions);
      SetChildren(children, model.children[i := child.model], Repr + child.Repr);
    }
  }

  lemma {:induction false} ErrorSpreads(lines: seq<string>, n: nat)
    requires n <= |lines| && FileRules(lines[..n]).Err?
    ensures FileRules(lines) == FileRules(lines[..n])
    decreases |lines|
  {
    if n < |lines| {
      assert lines[..|lines| - 1][..n] == lines[..n];
      ErrorSpreads(lines[..|lines| - 1], n);
    } else {
      assert lines[..n] == lines;
    }
  }

  class DecisionGraph {
    const root: Node

    ghost predicate Valid()
      reads this, root, root.Repr
    {
      root.Valid()
    }

    ghost function Model(): seq<Tree>
      reads root
    {
      root.model.children
    }

    constructor ()
      ensures Valid() && fresh(root.Repr) && Model() == EMPTY_GRAPH
    {
      root := new Node(Single, "", None);
      new;
      var builtin := new Node(Single, "**", Some(Actions(Delete, Keep)));
      root.children := [builtin];
      root.model := root.model.(children := [builtin.model]);
      root.Repr := root.Repr + builtin.Repr;
    }

    method AddRuleFromStr(line: string) returns (failed: Option<LineError>)
      requires Valid()
      modifies root.Repr
      ensures Valid() && fresh(root.Repr - old(root.Repr))
      ensures match ParseRule(line)
              case Err(e) => failed == Some(e) && Model() == old(Model())
              case Ok(rule) =>
                if ValidSegments(rule.segs)
                then failed == None && Model() == Grow(old(Model()), rule.segs, rule.actions)
                else failed == Some(Invalid)
    {
      var parsed := ParseRule(line);
      if parsed.Err? { return Some(parsed.error); }
      var ok := root.TraverseAdd(parsed.value.segs, parsed.value.actions);
      return if ok then None else Some(Invalid);
    }

    // The path is given as text, its segments separated by slashes.
    method GetAction(path: string) returns (found: Outcome)
      requires Valid()
      ensures found == DecisionTree.GetAction(Model(), Split(path, '/'))
    {
      var result := new ResultCell();
      var panicked := root.GetActionOfChildren(Split(path, '/'), result);
      return if panicked then Panic else Done(result.Value());
    }
  }

  // The graph stands for exactly these rules.
  ghost predicate Holds(graph: DecisionGraph, rules: seq<Rule>)
    reads graph, graph.root, graph.root.Repr
  {
    graph.Valid() && (forall r :: r in rules ==> r.segs != []) && graph.Model() == Build(rules)
  }

  // line.trim() == ""
  method IsBlank(line: string) returns (blank: bool)
    ensures blank <==> forall i :: 0 <= i < |line| ==> IsWhite(line[i])
  {
    for i := 0 to |line|
      invariant forall k :: 0 <= k < i ==> IsWhite(line[k])
    {
      if !IsWhite(line[i]) { return false; }
    }
    return true;
  }

  // One line of the file.
  method ReadLine(graph: DecisionGraph, line: string, ghost before: seq<string>) returns (failed: Option<LineError>)
    requires FileRules(before).Ok? && Holds(graph, FileRules(before).value)
    modifies graph.root.Repr
    ensures graph.Valid() && fresh(graph.root.Repr - old(graph.root.Repr))
    ensures match FileRules(before + [line])
            case Err(e) => failed == Some(e)
            case Ok(rules) => failed == None && Holds(graph, rules)
  {
    Front(before, line);
    IsComment(line);
    if line != "" && line[0] == '#' { return None; }
    var blank := IsBlank(line);
    if blank { return None; }
    failed := graph.AddRuleFromStr(line);
    if failed.None? {
      ghost var rule := ParseRule(line).value;
      ParseRuleExact(line, rule);
      RuleOrder.BuildSnoc(FileRules(before).value, rule);
    }
  }

  // The loop of parse_rules.
  method ReadLines(graph: DecisionGraph, lines: seq<string>) returns (failed: Option<LineError>)
    requires Holds(graph, [])
    modifies graph.root.Repr
    ensures graph.Valid() && fresh(graph.root.Repr - old(graph.root.Repr))
    ensures FileRules(lines).Err? ==> failed == Some(FileRules(lines).error)
    ensures FileRules(lines).Ok? ==> failed == None && Holds(graph, FileRules(lines).value)
  {
    for i := 0 to |lines|
      invariant graph.Valid() && fresh(graph.root.Repr - old(graph.root.Repr))
      invariant FileRules(lines[..i]).Ok? && Holds(graph, FileRules(lines[..i]).value)
    {
      TakeSnoc(lines, i);
      failed := ReadLine(graph, lines[i], lines[..i]);
      if failed.Some? {
        ErrorSpreads(lines, i + 1);
        return;
      }
    }
    TakeFull(lines);
    failed := None;
  }

  // parse_rules: the rules of the file in order, then the enforced rule.
  method ParseRules(lines: seq<string>) returns (graph: DecisionGraph, failed: Option<LineError>)
    ensures fresh(graph) && graph.Valid() && fresh(graph.root.Repr)
    ensures FileRules(lines).Err? ==> failed == Some(FileRules(lines).error)
    ensures FileRules(lines).Ok? ==> failed == None && Holds(graph, FileRules(lines).value + [KEEP_RULE])
  {
    graph := new DecisionGraph();
    failed := ReadLines(graph, lines);
    if failed.Some? { return; }
    KeepRuleText();
    KeepRuleValid();
    failed := Enforce(graph, KEEP_LINE, KEEP_RULE, FileRules(lines).value);
  }

  // The rule added after those of the file.
  method Enforce(graph: DecisionGraph, line: string, ghost rule: Rule, ghost rules: seq<Rule>)
      returns (failed: Option<LineError>)
    requires Holds(graph, rules) && ParseRule(line) == Ok(rule) && rule.segs != [] && ValidSegments(rule.segs)
    modifies graph.root.Repr
    ensures graph.Valid() && fresh(graph.root.Repr - old(graph.root.Repr))
    ensures failed == None && Holds(graph, rules + [rule])
  {
    RuleOrder.BuildSnoc(rules, rule);
    failed := graph.AddRuleFromStr(line);
  }
}
