// Folder trees, the file system calls of the cleanup, and what the cleanup leaves of a tree. Rule graphs enter
// only through the two questions asked of them.
module FolderTree {
  // ---------------------------------------------------------------- folder trees

  datatype EntryKind = File | Dir

  // A path relative to the cleaned folder; [] is that folder.
  type FsPath = seq<string>

  type Nodes = map<FsPath, EntryKind>

  // A name in a folder.
  predicate IsName(s: string) {
    s != "" && '/' !in s
  }

  function Parent(p: FsPath): FsPath {
    if p == [] then [] else p[..|p| - 1]
  }

  // Every entry but the cleaned folder stands in a folder.
  ghost predicate WellFormed(nodes: Nodes) {
    [] in nodes && nodes[[]] == Dir &&
    forall p {:trigger Parent(p)} ::
      p in nodes && p != [] ==> Parent(p) in nodes && nodes[Parent(p)] == Dir && IsName(p[|p| - 1])
  }

  predicate NoDeeper(nodes: Nodes, depth: int) {
    forall p :: p in nodes ==> |p| <= depth
  }

  ghost function Depth(paths: set<FsPath>): (depth: nat)
    ensures forall p :: p in paths ==> |p| <= depth
  {
    if paths == {} then 0
    else
      var p :| p in paths;
      var rest := Depth(paths - {p});
      assert forall q :: q in paths ==> q == p || q in paths - {p};
      if |p| > rest then |p| else rest
  }

  lemma {:induction false} AncestorsAreFolders(nodes: Nodes, a: FsPath, p: FsPath)
    requires WellFormed(nodes) && p in nodes && a < p
    ensures a in nodes && nodes[a] == Dir
    decreases |p|
  {
    var parent := Parent(p);
    if a != parent { AncestorsAreFolders(nodes, a, parent); }
  }

  lemma {:induction false} NamesOnPath(nodes: Nodes, p: FsPath)
    requires WellFormed(nodes) && p in nodes
    ensures forall s :: s in p ==> IsName(s)
    decreases |p|
  {
    if p != [] {
      NamesOnPath(nodes, Parent(p));
      assert p == Parent(p) + [p[|p| - 1]];
    }
  }

  // The file system calls of the cleanup. A failed call changes nothing, and the cleanup ignores the failure.
  class FileTree {
    var nodes: Nodes

    constructor (nodes: Nodes)
      ensures this.nodes == nodes
    {
      this.nodes := nodes;
    }

    // The names in a folder; the order of a directory listing is left open.
    method ReadDir(dir: FsPath) returns (names: set<string>)
      ensures forall n :: n in names <==> dir + [n] in nodes
    {
      names := set p | p in nodes && |p| == |dir| + 1 && dir <= p :: p[|dir|];
      forall n | dir + [n] in nodes ensures n in names { assert (dir + [n])[|dir|] == n; }
      forall n | n in names ensures dir + [n] in nodes {
        var p :| p in nodes && |p| == |dir| + 1 && dir <= p && p[|dir|] == n;
        assert p == dir + [n];
      }
    }

    // remove_dir: fails on a folder that is not empty.
    method RemoveDir(dir: FsPath)
      requires dir in nodes && nodes[dir] == Dir
      modifies this
      ensures nodes == if exists p :: p in old(nodes) && dir < p then old(nodes) else old(nodes) - {dir}
    {
      if !exists p :: p in nodes.Keys && dir < p { nodes := nodes - {dir}; }
    }

    method RemoveDirAll(dir: FsPath)
      requires dir in nodes && nodes[dir] == Dir
      modifies this
      ensures nodes == map p | p in old(nodes) && !(dir <= p) :: old(nodes)[p]
    {
      nodes := map p | p in nodes && !(dir <= p) :: nodes[p];
    }

    method RemoveFile(file: FsPath)
      requires file in nodes && nodes[file] == File
      modifies this
      ensures nodes == old(nodes) - {file}
    {
      nodes := nodes - {file};
    }
  }

  // ---------------------------------------------------------------- what is left

  // What the cleanup asks of a rule graph about a path: whether to keep it, whether to look into it, and whether
  // asking aborts the program.
  datatype Judge = Judge(keeps: FsPath -> bool, descend: FsPath -> bool, aborts: FsPath -> bool)

  // A path that is not looked into decides for all below it, and nothing below it is asked about.
  ghost predicate Steady(j: Judge) {
    forall c, q :: c != [] && !j.descend(c) && c <= q ==>
      j.keeps(q) == j.keeps(c) && !j.descend(q) && (c < q ==> !j.aborts(q))
  }

  // The path whose answer decides about p: the shortest beginning that is not looked into, or p itself.
  function Decider(j: Judge, p: FsPath): (d: FsPath)
    ensures d <= p && (d == [] <==> p == [])
    ensures d == p || !j.descend(d)
    decreases |p|
  {
    if p == [] then p
    else
      var d := Decider(j, Parent(p));
      if d != [] && !j.descend(d) then d else p
  }

  // The same questions, answered for paths that are never asked about by what decides about them.
  function Settled(j: Judge): Judge {
    Judge(p => j.keeps(Decider(j, p)), p => j.descend(Decider(j, p)), p => Decider(j, p) == p && j.aborts(p))
  }

  lemma {:induction false} DeciderBelow(j: Judge, c: FsPath, q: FsPath)
    requires c != [] && !j.descend(Decider(j, c)) && c <= q
    ensures Decider(j, q) == Decider(j, c)
    decreases |q|
  {
    if c != q { DeciderBelow(j, c, Parent(q)); }
  }

  lemma SettledIsSteady(j: Judge)
    ensures Steady(Settled(j))
  {
    var s := Settled(j);
    forall c, q | c != [] && !s.descend(c) && c <= q
      ensures s.keeps(q) == s.keeps(c) && !s.descend(q) && (c < q ==> !s.aborts(q))
    {
      DeciderBelow(j, c, q);
    }
  }

  // A steady judge is settled as it is.
  lemma SteadyIsSettled(j: Judge, p: FsPath)
    requires Steady(j) && p != []
    ensures var s := Settled(j); s.keeps(p) == j.keeps(p) && s.descend(p) == j.descend(p) && s.aborts(p) == j.aborts(p)
  {
    assert Decider(j, p) <= p && Decider(j, p) != [];
  }

  // In a folder that is looked into, every entry decides about itself.
  lemma AskedItself(j: Judge, c: FsPath)
    requires c != [] && (Parent(c) == [] || Settled(j).descend(Parent(c)))
    ensures Decider(j, c) == c
  {
  }

  ghost predicate Survives(j: Judge, nodes: Nodes, p: FsPath) {
    exists q :: q in nodes && p <= q && j.keeps(q)
  }

  // The entry at top and all below it reduced to what survives.
  ghost function Cleaned(j: Judge, nodes: Nodes, top: FsPath): Nodes {
    map p | p in nodes && (top <= p ==> Survives(j, nodes, p)) :: nodes[p]
  }

  // The same for what is strictly below top.
  ghost function CleanedBelow(j: Judge, nodes: Nodes, top: FsPath): Nodes {
    map p | p in nodes && (top < p ==> Survives(j, nodes, p)) :: nodes[p]
  }

  // An entry that makes its folder count as not empty: kept, and not a folder that is looked into.
  predicate Blocks(j: Judge, nodes: Nodes, p: FsPath) {
    p in nodes && j.keeps(p) && !(nodes[p] == Dir && j.descend(p))
  }

  // The emptiness result of a folder.
  ghost predicate ReportsEmpty(j: Judge, nodes: Nodes, dir: FsPath) {
    forall p :: dir < p ==> !Blocks(j, nodes, p)
  }

  // Asking about some entry below dir, or about c or some entry below it, aborts.
  ghost predicate AbortsBelow(j: Judge, nodes: Nodes, dir: FsPath) {
    exists p :: p in nodes && dir < p && j.aborts(p)
  }

  ghost predicate AbortsAt(j: Judge, nodes: Nodes, c: FsPath) {
    exists p :: p in nodes && c <= p && j.aborts(p)
  }

  // A tree on the way from one to the other.
  ghost predicate Between(least: Nodes, now: Nodes, most: Nodes) {
    (forall p :: p in now ==> p in most && now[p] == most[p]) && forall p :: p in least ==> p in now
  }

  // What a cleanup has done: everything, exactly, or some of it up to the lookup that aborted. A dry run changes
  // nothing.
  ghost predicate CleanedUpTo(before: Nodes, dryrun: bool, after: Nodes, cleaned: Nodes, aborts: bool, aborted: bool) {
    && (aborted <==> aborts)
    && (dryrun ==> after == before)
    && (!aborted && !dryrun ==> after == cleaned)
    && Between(cleaned, after, before)
  }

  // A deletion of p is tried while cleaning below dir.
  ghost predicate Attempted(j: Judge, nodes: Nodes, dir: FsPath, p: FsPath) {
    && p in nodes && dir < p && !j.keeps(p)
    && (forall n :: |dir| < n < |p| ==> j.descend(p[..n]))
    && (nodes[p] == Dir && j.descend(p) ==> ReportsEmpty(j, nodes, p))
  }

  ghost predicate Ready(j: Judge, nodes: Nodes) {
    Steady(j) && WellFormed(nodes)
  }

  // ---------------------------------------------------------------- facts about single entries

  // A file has nothing below it.
  lemma FileAlone(nodes: Nodes, c: FsPath, q: FsPath)
    requires WellFormed(nodes) && c in nodes && nodes[c] == File && q in nodes && c <= q
    ensures q == c
  {
    if c < q { AncestorsAreFolders(nodes, c, q); }
  }

  lemma CleanedWellFormed(j: Judge, nodes: Nodes, top: FsPath)
    requires WellFormed(nodes) && top != []
    ensures WellFormed(Cleaned(j, nodes, top))
  {
    var after := Cleaned(j, nodes, top);
    forall p | p in after && p != [] ensures Parent(p) in after {
      var parent := Parent(p);
      if top <= parent {
        var q :| q in nodes && p <= q && j.keeps(q);
        assert parent <= q;
      }
    }
    assert [] in after;
  }

  // ---------------------------------------------------------------- one entry

  ghost function AttemptsAt(j: Judge, nodes: Nodes, c: FsPath): set<FsPath>
    requires c != []
  {
    set p | p in nodes && c <= p && Attempted(j, nodes, Parent(c), p)
  }

  ghost function AttemptsBelow(j: Judge, nodes: Nodes, dir: FsPath): set<FsPath> {
    set p | p in nodes && Attempted(j, nodes, dir, p)
  }

  ghost predicate ReportsEmptyAt(j: Judge, nodes: Nodes, c: FsPath) {
    forall p :: c <= p ==> !Blocks(j, nodes, p)
  }

  lemma CleanedAtTop(j: Judge, nodes: Nodes, c: FsPath)
    requires c in nodes
    ensures var below := CleanedBelow(j, nodes, c);
            Cleaned(j, nodes, c) == if Survives(j, nodes, c) then below else below - {c}
  {
    forall p | p in nodes && c <= p && p != c ensures c < p { Proper(c, p); }
  }

  lemma Proper(c: FsPath, p: FsPath)
    requires c <= p && p != c
    ensures c < p
  {
    assert |c| == |p| ==> c == p;
  }

  // remove_dir is tried and succeeds exactly when nothing in the folder survives and it is not kept itself.
  lemma RemovalExact(j: Judge, nodes: Nodes, c: FsPath)
    requires c in nodes && nodes[c] == Dir && j.descend(c)
    ensures !Survives(j, nodes, c) <==>
            ReportsEmpty(j, nodes, c) && !j.keeps(c) && !exists p :: p in CleanedBelow(j, nodes, c) && c < p
  {
    if j.keeps(c) {
      assert Survives(j, nodes, c);
    } else if Survives(j, nodes, c) {
      var q :| q in nodes && c <= q && j.keeps(q);
      Proper(c, q);
      assert Survives(j, nodes, q);
      assert q in CleanedBelow(j, nodes, c);
    } else {
      NothingBelow(j, nodes, c);
    }
  }

  lemma NothingBelow(j: Judge, nodes: Nodes, c: FsPath)
    requires !Survives(j, nodes, c)
    ensures ReportsEmpty(j, nodes, c) && !exists p :: p in CleanedBelow(j, nodes, c) && c < p
  {
    forall p | p in nodes && c < p ensures !j.keeps(p) && !Survives(j, nodes, p) {
      assert c <= p && forall q :: q in nodes && p <= q ==> c <= q;
    }
  }

  lemma LookedIntoReports(j: Judge, nodes: Nodes, c: FsPath)
    requires c != [] && c in nodes && nodes[c] == Dir && j.descend(c)
    ensures ReportsEmptyAt(j, nodes, c) <==> ReportsEmpty(j, nodes, c)
  {
    assert !Blocks(j, nodes, c);
    forall p | Blocks(j, nodes, p) && c <= p && p != c ensures c < p { Proper(c, p); }
  }

  // All of the above for one folder that is looked into: cleaning below it and then trying remove_dir.
  lemma LookedIntoExact(j: Judge, nodes: Nodes, c: FsPath)
    requires c != [] && c in nodes && nodes[c] == Dir && j.descend(c)
    ensures var below := CleanedBelow(j, nodes, c);
            var tried := ReportsEmpty(j, nodes, c) && !j.keeps(c);
            && Cleaned(j, nodes, c) == (if tried && !exists p :: p in below && c < p then below - {c} else below)
            && (ReportsEmptyAt(j, nodes, c) <==> ReportsEmpty(j, nodes, c))
            && AttemptsAt(j, nodes, c) == AttemptsBelow(j, nodes, c) + if tried then {c} else {}
  {
    CleanedAtTop(j, nodes, c);
    RemovalExact(j, nodes, c);
    LookedIntoReports(j, nodes, c);
    LookedIntoAttempts(j, nodes, c);
  }

  // A folder whose contents were cleaned, or could not be, as a whole.
  lemma EntryAborted(j: Judge, before: Nodes, dryrun: bool, after: Nodes, c: FsPath)
    requires c != [] && !j.aborts(c)
    requires CleanedUpTo(before, dryrun, after, CleanedBelow(j, before, c), AbortsBelow(j, before, c), true)
    ensures CleanedUpTo(before, dryrun, after, Cleaned(j, before, c), AbortsAt(j, before, c), true)
  {
    LookedIntoAborts(j, before, c);
    assert forall p :: p in Cleaned(j, before, c) ==> p in CleanedBelow(j, before, c);
  }

  lemma EntryCleaned(j: Judge, before: Nodes, dryrun: bool, after: Nodes, c: FsPath)
    requires after == (if dryrun then before else Cleaned(j, before, c)) && !AbortsAt(j, before, c)
    ensures CleanedUpTo(before, dryrun, after, Cleaned(j, before, c), AbortsAt(j, before, c), false)
  {
  }

  lemma LookedIntoAborts(j: Judge, nodes: Nodes, c: FsPath)
    requires c != [] && !j.aborts(c)
    ensures AbortsAt(j, nodes, c) <==> AbortsBelow(j, nodes, c)
  {
    forall p | p in nodes && c <= p && p != c ensures c < p { Proper(c, p); }
  }

  lemma WholeAborts(j: Judge, nodes: Nodes, c: FsPath)
    requires Ready(j, nodes) && c != [] && c in nodes && (nodes[c] == File || !j.descend(c))
    ensures AbortsAt(j, nodes, c) <==> j.aborts(c)
  {
    forall p | p in nodes && c <= p && p != c ensures !j.aborts(p) {
      Proper(c, p);
      if nodes[c] == File { FileAlone(nodes, c, p); }
    }
  }

  lemma AttemptedBelow(j: Judge, nodes: Nodes, c: FsPath, p: FsPath)
    requires c != [] && c in nodes && p in nodes && c < p
    ensures Attempted(j, nodes, Parent(c), p) <==> j.descend(c) && Attempted(j, nodes, c, p)
  {
    assert p[..|c|] == c && Parent(c) < p;
    var d := Parent(c);
    assert (forall n :: |d| < n < |p| ==> j.descend(p[..n])) <==>
           j.descend(p[..|c|]) && forall n :: |c| < n < |p| ==> j.descend(p[..n]);
  }

  lemma AttemptedAtTop(j: Judge, nodes: Nodes, c: FsPath)
    requires c != [] && c in nodes
    ensures Attempted(j, nodes, Parent(c), c) <==>
            !j.keeps(c) && (nodes[c] == Dir && j.descend(c) ==> ReportsEmpty(j, nodes, c))
  {
    assert Parent(c) < c;
  }

  lemma LookedIntoAttempts(j: Judge, nodes: Nodes, c: FsPath)
    requires c != [] && c in nodes && nodes[c] == Dir && j.descend(c)
    ensures AttemptsAt(j, nodes, c) ==
            AttemptsBelow(j, nodes, c) + if !j.keeps(c) && ReportsEmpty(j, nodes, c) then {c} else {}
  {
    AttemptedAtTop(j, nodes, c);
    forall p | p in nodes && c < p { AttemptedBelow(j, nodes, c, p); }
    var all, below := AttemptsAt(j, nodes, c), AttemptsBelow(j, nodes, c);
    forall p ensures p in all <==> p in below || (p == c && Attempted(j, nodes, Parent(c), c)) {
      if p in nodes && c <= p && p != c { Proper(c, p); }
    }
  }

  // An entry that is not looked into, a file or a folder, goes or stays with all below it.
  lemma TakenWhole(j: Judge, nodes: Nodes, c: FsPath)
    requires Ready(j, nodes) && c != [] && c in nodes && (nodes[c] == File || !j.descend(c))
    ensures Cleaned(j, nodes, c) == if j.keeps(c) then nodes else map p | p in nodes && !(c <= p) :: nodes[p]
    ensures ReportsEmptyAt(j, nodes, c) <==> !j.keeps(c)
    ensures AttemptsAt(j, nodes, c) == if j.keeps(c) then {} else {c}
  {
    forall q | q in nodes && c <= q ensures j.keeps(q) <==> j.keeps(c) { WholeKeeps(j, nodes, c, q); }
    assert Blocks(j, nodes, c) <==> j.keeps(c);
    TakenWholeAttempts(j, nodes, c);
  }

  lemma TakenWholeAttempts(j: Judge, nodes: Nodes, c: FsPath)
    requires Ready(j, nodes) && c != [] && c in nodes && (nodes[c] == File || !j.descend(c))
    ensures AttemptsAt(j, nodes, c) == if j.keeps(c) then {} else {c}
  {
    AttemptedAtTop(j, nodes, c);
    forall p | p in nodes && c <= p && p != c ensures !Attempted(j, nodes, Parent(c), p) {
      if nodes[c] == File { FileAlone(nodes, c, p); }
      Proper(c, p);
      AttemptedBelow(j, nodes, c, p);
    }
    var all := AttemptsAt(j, nodes, c);
    assert forall p :: p in all ==> p == c;
  }

  lemma WholeKeeps(j: Judge, nodes: Nodes, c: FsPath, q: FsPath)
    requires Ready(j, nodes) && c != [] && c in nodes && (nodes[c] == File || !j.descend(c))
    requires q in nodes && c <= q
    ensures j.keeps(q) <==> j.keeps(c)
  {
    if nodes[c] == File { FileAlone(nodes, c, q); }
  }

  // ---------------------------------------------------------------- one folder

  // The state of a folder after the entries named in done have been cleaned.
  ghost function Partly(j: Judge, nodes: Nodes, cur: FsPath, done: set<string>): Nodes {
    map p | p in nodes && (cur < p && p[|cur|] in done ==> Survives(j, nodes, p)) :: nodes[p]
  }

  ghost predicate EmptySoFar(j: Judge, nodes: Nodes, cur: FsPath, done: set<string>) {
    forall p :: cur < p && p[|cur|] in done ==> !Blocks(j, nodes, p)
  }

  // No entry asked about so far aborted.
  ghost predicate QuietSoFar(j: Judge, nodes: Nodes, cur: FsPath, done: set<string>) {
    forall p :: p in nodes && cur < p && p[|cur|] in done ==> !j.aborts(p)
  }

  ghost function AttemptsSoFar(j: Judge, nodes: Nodes, cur: FsPath, done: set<string>): set<FsPath> {
    set p | p in nodes && cur < p && p[|cur|] in done && Attempted(j, nodes, cur, p)
  }

  // Two trees that agree at c and below.
  ghost predicate SameFrom(nodes: Nodes, mid: Nodes, c: FsPath) {
    forall p :: c <= p ==> (p in nodes <==> p in mid) && (p in nodes ==> nodes[p] == mid[p])
  }

  lemma SameFromFacts(j: Judge, nodes: Nodes, mid: Nodes, c: FsPath, p: FsPath)
    requires SameFrom(nodes, mid, c) && c <= p && c != []
    ensures Survives(j, nodes, p) <==> Survives(j, mid, p)
    ensures Blocks(j, nodes, p) <==> Blocks(j, mid, p)
    ensures Attempted(j, nodes, Parent(c), p) <==> Attempted(j, mid, Parent(c), p)
  {
    if Survives(j, nodes, p) {
      var q :| q in nodes && p <= q && j.keeps(q);
      assert c <= q;
    }
    if Survives(j, mid, p) {
      var q :| q in mid && p <= q && j.keeps(q);
      assert c <= q;
    }
    forall q | p < q ensures Blocks(j, nodes, q) <==> Blocks(j, mid, q) { assert c <= q; }
    assert ReportsEmpty(j, nodes, p) <==> ReportsEmpty(j, mid, p);
  }

  lemma BelowNamed(cur: FsPath, name: string, p: FsPath)
    ensures cur + [name] <= p <==> cur < p && p[|cur|] == name
  {
    var c := cur + [name];
    if cur < p && p[|cur|] == name { assert p[..|c|] == c; }
    if c <= p { assert p[|cur|] == c[|cur|] && p[..|cur|] == cur; }
  }

  // Cleaning the next entry in the state reached so far is cleaning it in the original tree.
  lemma NextEntry(j: Judge, nodes: Nodes, cur: FsPath, done: set<string>, name: string)
    requires name !in done
    ensures SameFrom(nodes, Partly(j, nodes, cur, done), cur + [name])
    ensures Cleaned(j, Partly(j, nodes, cur, done), cur + [name]) == Partly(j, nodes, cur, done + {name})
  {
    var c, mid := cur + [name], Partly(j, nodes, cur, done);
    forall p ensures c <= p <==> cur < p && p[|cur|] == name { BelowNamed(cur, name, p); }
    assert SameFrom(nodes, mid, c);
    forall p | c <= p ensures Survives(j, nodes, p) <==> Survives(j, mid, p) { SameFromFacts(j, nodes, mid, c, p); }
    assert Cleaned(j, mid, c).Keys == Partly(j, nodes, cur, done + {name}).Keys;
  }

  lemma NextReports(j: Judge, nodes: Nodes, mid: Nodes, cur: FsPath, done: set<string>, name: string)
    requires SameFrom(nodes, mid, cur + [name])
    ensures var c, more := cur + [name], done + {name};
            (EmptySoFar(j, nodes, cur, more) <==> EmptySoFar(j, nodes, cur, done) && ReportsEmptyAt(j, mid, c)) &&
            AttemptsSoFar(j, nodes, cur, more) == AttemptsSoFar(j, nodes, cur, done) + AttemptsAt(j, mid, c) &&
            (QuietSoFar(j, nodes, cur, more) <==> QuietSoFar(j, nodes, cur, done) && !AbortsAt(j, mid, c))
  {
    var c := cur + [name];
    forall p ensures c <= p <==> cur < p && p[|cur|] == name { BelowNamed(cur, name, p); }
    assert Parent(c) == cur;
    forall p | c <= p
      ensures Blocks(j, nodes, p) <==> Blocks(j, mid, p)
      ensures Attempted(j, nodes, cur, p) <==> Attempted(j, mid, cur, p)
    {
      SameFromFacts(j, nodes, mid, c, p);
    }
  }

  // When every entry of the folder has been cleaned, all below it has been.
  lemma FolderDone(j: Judge, nodes: Nodes, cur: FsPath, names: set<string>)
    requires WellFormed(nodes) && forall n :: n in names <==> cur + [n] in nodes
    ensures Partly(j, nodes, cur, names) == CleanedBelow(j, nodes, cur)
    ensures EmptySoFar(j, nodes, cur, names) <==> ReportsEmpty(j, nodes, cur)
    ensures AttemptsSoFar(j, nodes, cur, names) == AttemptsBelow(j, nodes, cur)
    ensures QuietSoFar(j, nodes, cur, names) <==> !AbortsBelow(j, nodes, cur)
  {
    forall p | p in nodes && cur < p ensures p[|cur|] in names {
      var c := cur + [p[|cur|]];
      BelowNamed(cur, p[|cur|], p);
      if c != p { AncestorsAreFolders(nodes, c, p); }
    }
  }

  // What holds when the entries in done have been dealt with.
  ghost predicate SoFar(j: Judge, start: Nodes, cur: FsPath, done: set<string>, dryrun: bool,
                        nodes: Nodes, empty: bool, log: set<FsPath>) {
    && WellFormed(nodes)
    && nodes == (if dryrun then start else Partly(j, start, cur, done))
    && empty == EmptySoFar(j, start, cur, done)
    && log == AttemptsSoFar(j, start, cur, done)
    && QuietSoFar(j, start, cur, done)
  }

  lemma NothingDone(j: Judge, start: Nodes, cur: FsPath, dryrun: bool)
    requires WellFormed(start)
    ensures SoFar(j, start, cur, {}, dryrun, start, true, {})
  {
    assert Partly(j, start, cur, {}) == start;
  }

  // All entries have been dealt with.
  lemma AllDone(j: Judge, start: Nodes, cur: FsPath, names: set<string>, dryrun: bool,
                now: Nodes, empty: bool, log: set<FsPath>)
    requires WellFormed(start) && (forall n :: n in names <==> cur + [n] in start)
    requires SoFar(j, start, cur, names, dryrun, now, empty, log)
    ensures CleanedUpTo(start, dryrun, now, CleanedBelow(j, start, cur), AbortsBelow(j, start, cur), false)
    ensures (empty <==> ReportsEmpty(j, start, cur)) && log == AttemptsBelow(j, start, cur)
  {
    FolderDone(j, start, cur, names);
  }

  // The next entry is still there, in a tree that is no deeper.
  lemma NextThere(j: Judge, start: Nodes, cur: FsPath, done: set<string>, name: string, dryrun: bool,
                  mid: Nodes, empty: bool, log: set<FsPath>, depth: int)
    requires SoFar(j, start, cur, done, dryrun, mid, empty, log) && name !in done
    requires cur + [name] in start && NoDeeper(start, depth)
    ensures SameFrom(start, mid, cur + [name]) && cur + [name] in mid && NoDeeper(mid, depth)
    ensures Parent(cur + [name]) == cur && |cur + [name]| == |cur| + 1 <= depth
  {
    NextEntry(j, start, cur, done, name);
  }

  // It is cleaned.
  lemma NextDone(j: Judge, start: Nodes, cur: FsPath, done: set<string>, name: string, dryrun: bool,
                 mid: Nodes, empty: bool, log: set<FsPath>)
    requires SoFar(j, start, cur, done, dryrun, mid, empty, log) && name !in done
    requires SameFrom(start, mid, cur + [name]) && !AbortsAt(j, mid, cur + [name])
    ensures SoFar(j, start, cur, done + {name}, dryrun, if dryrun then mid else Cleaned(j, mid, cur + [name]),
                  empty && ReportsEmptyAt(j, mid, cur + [name]), log + AttemptsAt(j, mid, cur + [name]))
  {
    CleanedWellFormed(j, mid, cur + [name]);
    NextEntry(j, start, cur, done, name);
    NextReports(j, start, mid, cur, done, name);
  }

  // Or it aborts, and the folder is left somewhere between what it was and what it would have become.
  lemma NextAborts(j: Judge, start: Nodes, cur: FsPath, done: set<string>, name: string, dryrun: bool,
                   mid: Nodes, empty: bool, log: set<FsPath>, now: Nodes)
    requires SoFar(j, start, cur, done, dryrun, mid, empty, log) && name !in done
    requires SameFrom(start, mid, cur + [name]) && AbortsAt(j, mid, cur + [name])
    requires CleanedUpTo(mid, dryrun, now, Cleaned(j, mid, cur + [name]), true, true)
    ensures CleanedUpTo(start, dryrun, now, CleanedBelow(j, start, cur), AbortsBelow(j, start, cur), true)
  {
    var c := cur + [name];
    var p :| p in mid && c <= p && j.aborts(p);
    assert p in start && cur < p by { BelowNamed(cur, name, p); }
    if !dryrun {
      NextEntry(j, start, cur, done, name);
      assert forall q :: q in CleanedBelow(j, start, cur) ==> q in Partly(j, start, cur, done + {name});
    }
  }
}
