// That daemons do come to rest: from every state of the machine of module CacheSync, deliveries alone lead to a quiet
// connection, and after a reconnection to one that agrees with the server.
module CatchUp {
  import opened Wrappers
  import opened CacheSync

  // ---------------------------------------------------------------- how much is under way

  function RequestWork(r: Request): nat {
    if r.Fetch? then 3 else 1
  }

  function ReplyWork(r: Reply): nat {
    if r.UsersChanged? then 4 else 1
  }

  function Requests(rs: seq<Request>, each: nat): nat {
    if rs == [] then 0 else each + RequestWork(rs[0]) + Requests(rs[1..], each)
  }

  function Replies(rs: seq<Reply>): nat {
    if rs == [] then 0 else ReplyWork(rs[0]) + Replies(rs[1..])
  }

  function ForwarderWork(f: Option<Forwarder>): nat {
    if f.None? then 0
    else (if f.value.hand.Some? then 5 else 0) + if f.value.unread.Some? && !f.value.lagged then 6 else 0
  }

  // The deliveries it takes at most until nothing is under way on the connection.
  function Work(c: Conn): nat {
    Requests(c.boot, 1) + Requests(c.c2s, 0) + (if c.handler.Replying? then 2 else 0) + Replies(c.s2c) +
    ForwarderWork(c.forwarder)
  }

  lemma {:induction false} RequestsSnoc(rs: seq<Request>, r: Request)
    ensures Requests(rs + [r], 0) == Requests(rs, 0) + RequestWork(r)
  {
    if rs == [] {
      assert rs + [r] == [r];
    } else {
      assert (rs + [r])[1..] == rs[1..] + [r];
      RequestsSnoc(rs[1..], r);
    }
  }

  lemma {:induction false} RepliesSnoc(rs: seq<Reply>, r: Reply)
    ensures Replies(rs + [r]) == Replies(rs) + ReplyWork(r)
  {
    if rs == [] {
      assert rs + [r] == [r];
    } else {
      assert (rs + [r])[1..] == rs[1..] + [r];
      RepliesSnoc(rs[1..], r);
    }
  }

  // ---------------------------------------------------------------- one delivery

  predicate Delivery(step: ConnStep) {
    !step.Reconnect? && !step.SendPing? && !step.ForwardPing?
  }

  // The server's side: the handler and the forwarder.
  lemma ServerDelivers(boot: seq<Request>, users: Users, c: Conn) returns (step: ConnStep, c': Conn)
    requires c.handler.Replying? || c.c2s != [] || ForwarderWork(c.forwarder) > 0
    ensures Delivery(step) && ConnNext(boot, users, false, step, c, c') && Work(c') < Work(c)
    ensures Lagged(c') ==> Lagged(c)
  {
    if c.handler.Replying? {
      step, c' := SendSnapshot, c.(handler := Idle, s2c := c.s2c + [Shadow(c.handler.snapshot)]);
      RepliesSnoc(c.s2c, Shadow(c.handler.snapshot));
    } else if c.c2s != [] {
      var c1 := c.(c2s := c.c2s[1..]);
      match c.c2s[0]
      case Listen => step, c' := HandleListen, c1.(forwarder := Some(Forwarder(None, None, false)));
      case Fetch => step, c' := HandleFetch, c1.(handler := Replying(users));
      case Ping => step, c' := HandlePing, c1;
    } else {
      var f := c.forwarder.value;
      if f.hand.Some? {
        var r := if f.hand.value.UsersNotice? then UsersChanged else Other;
        step, c' := ForwardNotice, c.(forwarder := Some(f.(hand := None)), s2c := c.s2c + [r]);
        RepliesSnoc(c.s2c, r);
      } else {
        step, c' := TakeNotice, c.(forwarder := Some(Forwarder(None, f.unread, false)));
      }
    }
  }

  // The daemon's side: what it still has to send, and what has arrived.
  lemma DaemonDelivers(boot: seq<Request>, users: Users, c: Conn) returns (step: ConnStep, c': Conn)
    requires c.boot != [] || c.s2c != []
    ensures Delivery(step) && ConnNext(boot, users, false, step, c, c') && Work(c') < Work(c)
    ensures Lagged(c') ==> Lagged(c)
  {
    if c.boot != [] {
      step, c' := SendBoot, c.(boot := c.boot[1..], c2s := c.c2s + [c.boot[0]]);
      RequestsSnoc(c.c2s, c.boot[0]);
    } else {
      var c1 := c.(s2c := c.s2c[1..]);
      step := Receive;
      match c.s2c[0]
      case Shadow(us) => c' := c1.(cache := Some(us));
      case UsersChanged =>
        c' := c1.(c2s := c.c2s + [Fetch]);
        RequestsSnoc(c.c2s, Fetch);
      case Other => c' := c1;
    }
  }

  lemma Delivers(boot: seq<Request>, users: Users, c: Conn) returns (step: ConnStep, c': Conn)
    requires Work(c) > 0
    ensures Delivery(step) && ConnNext(boot, users, false, step, c, c') && Work(c') < Work(c)
    ensures Lagged(c') ==> Lagged(c)
  {
    if c.boot != [] || c.s2c != [] {
      step, c' := DaemonDelivers(boot, users, c);
    } else {
      step, c' := ServerDelivers(boot, users, c);
    }
  }

  lemma NoWorkIsQuiet(st: State, c: Conn)
    requires !st.adding && Work(c) == 0
    ensures Quiet(st, c) && Unasked(c)
  {
  }

  // ---------------------------------------------------------------- until all is quiet

  // The second run goes on where the first ends, and on its own part takes only deliveries of d's connection.
  ghost predicate GoesOn(boot: seq<Request>, run: seq<State>, steps: seq<Step>,
                         run': seq<State>, steps': seq<Step>, d: nat)
  {
    IsRun(boot, run, steps) && IsRun(boot, run', steps') && run <= run' && steps <= steps' &&
    forall k :: |steps| <= k < |steps'| ==> steps'[k].Daemon? && steps'[k].d == d && Delivery(steps'[k].step)
  }

  lemma OneMore(boot: seq<Request>, run: seq<State>, steps: seq<Step>, step: Step, st': State)
      returns (run': seq<State>, steps': seq<Step>)
    requires IsRun(boot, run, steps) && Next(boot, run[|run| - 1], step, st')
    ensures run' == run + [st'] && steps' == steps + [step] && IsRun(boot, run', steps')
  {
    run', steps' := run + [st'], steps + [step];
  }

  // What deliveries keep: the list, that no registration is going on, that the receiver has not lagged, and a
  // cache that is going to hold the list.
  ghost predicate Kept(st: State, st': State, d: nat) {
    d in st.conns && d in st'.conns && st'.users == st.users && !st'.adding &&
    (Lagged(st'.conns[d]) ==> Lagged(st.conns[d])) &&
    (Trails(st.users, 0, st.conns[d]) ==> Trails(st.users, 0, st'.conns[d]))
  }

  lemma DeliverOne(boot: seq<Request>, run: seq<State>, steps: seq<Step>, d: nat)
      returns (run': seq<State>, steps': seq<Step>)
    requires Fetch in boot && IsRun(boot, run, steps) && d in run[|run| - 1].conns && !run[|run| - 1].adding
    requires Work(run[|run| - 1].conns[d]) > 0
    ensures GoesOn(boot, run, steps, run', steps', d) && Kept(run[|run| - 1], run'[|run'| - 1], d)
    ensures Work(run'[|run'| - 1].conns[d]) < Work(run[|run| - 1].conns[d])
    ensures Unannounced(steps, d) == 0 ==> Unannounced(steps', d) == 0
  {
    var st := run[|run| - 1];
    var step, c := Delivers(boot, st.users, st.conns[d]);
    if Trails(st.users, 0, st.conns[d]) { TrailsStep(boot, st.users, false, 0, step, st.conns[d], c); }
    var st' := st.(conns := st.conns[d := c]);
    assert st'.conns == st.conns[d := st'.conns[d]];
    run', steps' := OneMore(boot, run, steps, Daemon(d, step), st');
    assert steps'[..|steps|] == steps;
  }

  // From every state in which no registration is going on, deliveries alone make a daemon's connection quiet.
  lemma DeliverAll(boot: seq<Request>, run: seq<State>, steps: seq<Step>, d: nat)
      returns (run': seq<State>, steps': seq<Step>)
    requires Fetch in boot && IsRun(boot, run, steps) && d in run[|run| - 1].conns && !run[|run| - 1].adding
    ensures GoesOn(boot, run, steps, run', steps', d) && Kept(run[|run| - 1], run'[|run'| - 1], d)
    ensures var st' := run'[|run'| - 1]; Quiet(st', st'.conns[d]) && Unasked(st'.conns[d])
    ensures Unannounced(steps, d) == 0 ==> Unannounced(steps', d) == 0
  {
    run', steps' := run, steps;
    while Work(run'[|run'| - 1].conns[d]) > 0
      invariant GoesOn(boot, run, steps, run', steps', d) && Kept(run[|run| - 1], run'[|run'| - 1], d)
      invariant Unannounced(steps, d) == 0 ==> Unannounced(steps', d) == 0
      decreases Work(run'[|run'| - 1].conns[d])
    {
      var run1, steps1 := DeliverOne(boot, run', steps', d);
      GoesOnFurther(boot, run, steps, run', steps', run1, steps1, d);
      KeptFurther(run[|run| - 1], run'[|run'| - 1], run1[|run1| - 1], d);
      run', steps' := run1, steps1;
    }
    NoWorkIsQuiet(run'[|run'| - 1], run'[|run'| - 1].conns[d]);
  }

  lemma KeptFurther(st: State, st1: State, st': State, d: nat)
    requires Kept(st, st1, d) && Kept(st1, st', d)
    ensures Kept(st, st', d)
  {
  }

  lemma GoesOnFurther(boot: seq<Request>, run: seq<State>, steps: seq<Step>, run1: seq<State>, steps1: seq<Step>,
                      run': seq<State>, steps': seq<Step>, d: nat)
    requires GoesOn(boot, run, steps, run1, steps1, d) && GoesOn(boot, run1, steps1, run', steps', d)
    ensures GoesOn(boot, run, steps, run', steps', d)
  {
    forall k | |steps| <= k < |steps'|
      ensures steps'[k].Daemon? && steps'[k].d == d && Delivery(steps'[k].step)
    {
      if k < |steps1| { assert steps'[k] == steps1[k]; }
    }
  }

  // The step that ends a registration, with or without the index on disk.
  lemma EndRegistration(boot: seq<Request>, run: seq<State>, steps: seq<Step>, written: bool)
      returns (run': seq<State>, steps': seq<Step>)
    requires IsRun(boot, run, steps) && run[|run| - 1].adding
    ensures IsRun(boot, run', steps') && |run'| == |run| + 1 && run <= run'
    ensures steps' == steps + [if written then NotifyUsers else WriteFails]
    ensures var st, st' := run[|run| - 1], run'[|run'| - 1];
            !st'.adding && st'.users == st.users && st'.conns.Keys == st.conns.Keys
  {
    var st := run[|run| - 1];
    var ended := st.(adding := false);
    var st' := if written then ended.(conns := NotifyAll(st.conns, UsersNotice)) else ended;
    run', steps' := OneMore(boot, run, steps, if written then NotifyUsers else WriteFails, st');
  }

  // From every reachable state, once a registration in progress has ended one way or the other, deliveries lead to
  // a quiet connection.
  lemma QuietIsReached(boot: seq<Request>, run: seq<State>, steps: seq<Step>, d: nat, written: bool)
      returns (mid: seq<Step>, run': seq<State>, steps': seq<Step>)
    requires Fetch in boot && IsRun(boot, run, steps) && d in run[|run| - 1].conns
    ensures mid == if run[|run| - 1].adding then steps + [if written then NotifyUsers else WriteFails] else steps
    ensures IsRun(boot, run', steps') && run <= run' && mid <= steps'
    ensures forall k :: |mid| <= k < |steps'| ==> steps'[k].Daemon? && steps'[k].d == d && Delivery(steps'[k].step)
    ensures var st' := run'[|run'| - 1];
            st'.users == run[|run| - 1].users && d in st'.conns && Quiet(st', st'.conns[d])
  {
    mid := steps;
    var from := run;
    if run[|run| - 1].adding { from, mid := EndRegistration(boot, run, steps, written); }
    run', steps' := DeliverAll(boot, from, mid, d);
  }

  lemma QuietAtEnd(run: seq<State>, steps: seq<Step>, d: nat)
    requires IsRun(BOOT, run, steps) && d in run[|run| - 1].conns && Quiet(run[|run| - 1], run[|run| - 1].conns[d])
    requires !Lagged(run[|run| - 1].conns[d]) && Unannounced(steps, d) == 0
    ensures run[|run| - 1].conns[d].cache == Some(run[|run| - 1].users)
  {
    TakeFull(steps);
    QuietAgrees(run, steps, |steps|, d);
  }

  // So a daemon whose receiver has not lagged, and that missed no announcement, catches up by deliveries alone.
  lemma CatchesUp(run: seq<State>, steps: seq<Step>, d: nat) returns (run': seq<State>, steps': seq<Step>)
    requires IsRun(BOOT, run, steps) && d in run[|run| - 1].conns && !run[|run| - 1].adding
    requires !Lagged(run[|run| - 1].conns[d]) && Unannounced(steps, d) == 0
    ensures GoesOn(BOOT, run, steps, run', steps', d)
    ensures var st' := run'[|run'| - 1];
            st'.users == run[|run| - 1].users && d in st'.conns && st'.conns[d].cache == Some(st'.users)
  {
    run', steps' := DeliverAll(BOOT, run, steps, d);
    QuietAtEnd(run', steps', d);
  }

  // And whatever has happened, a reconnection and deliveries bring the server's list, once a registration in
  // progress has ended one way or the other.
  lemma ReconnectRecovers(boot: seq<Request>, run: seq<State>, steps: seq<Step>, d: nat, written: bool)
      returns (mid: seq<Step>, run': seq<State>, steps': seq<Step>)
    requires Fetch in boot && IsRun(boot, run, steps) && d in run[|run| - 1].conns
    ensures mid == if run[|run| - 1].adding then steps + [if written then NotifyUsers else WriteFails] else steps
    ensures IsRun(boot, run', steps') && run <= run' && mid + [Daemon(d, Reconnect)] <= steps'
    ensures forall k :: |mid| < k < |steps'| ==> steps'[k].Daemon? && steps'[k].d == d && Delivery(steps'[k].step)
    ensures var st' := run'[|run'| - 1];
            st'.users == run[|run| - 1].users && d in st'.conns && st'.conns[d].cache == Some(st'.users)
  {
    mid := steps;
    var from := run;
    if run[|run| - 1].adding { from, mid := EndRegistration(boot, run, steps, written); }
    run', steps' := ReconnectNow(boot, from, mid, d);
  }

  lemma ReconnectNow(boot: seq<Request>, run: seq<State>, steps: seq<Step>, d: nat)
      returns (run': seq<State>, steps': seq<Step>)
    requires Fetch in boot && IsRun(boot, run, steps) && d in run[|run| - 1].conns && !run[|run| - 1].adding
    ensures IsRun(boot, run', steps') && run <= run' && steps + [Daemon(d, Reconnect)] <= steps'
    ensures forall k :: |steps| < k < |steps'| ==> steps'[k].Daemon? && steps'[k].d == d && Delivery(steps'[k].step)
    ensures var st' := run'[|run'| - 1];
            st'.users == run[|run| - 1].users && d in st'.conns && st'.conns[d].cache == Some(st'.users)
  {
    var st := run[|run| - 1];
    var st1 := st.(conns := st.conns[d := NewConn(boot, st.conns[d].cache)]);
    assert st1.conns == st.conns[d := st1.conns[d]];
    var run1, steps1 := OneMore(boot, run, steps, Daemon(d, Reconnect), st1);
    run', steps' := DeliverAll(boot, run1, steps1, d);
    CacheIsList(st.users, run'[|run'| - 1].conns[d]);
  }

  lemma CacheIsList(users: Users, c: Conn)
    requires Trails(users, 0, c) && Unasked(c)
    ensures c.cache == Some(users)
  {
    NoShadows(c.s2c, c.cache);
    assert users[..|users|] == users;
  }
}
