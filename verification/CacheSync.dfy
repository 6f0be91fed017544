// How every daemon keeps its copy of the user list up to date: subscribe, snapshot, notify. One state holds the
// server and any number of daemons; messages travel in order on each connection.
module CacheSync {
  import opened Wrappers
  import opened Protocol

  type Users = seq<LapasUserShadow>

  // From daemon to server: ControlListenEvents, ShadowGetList with the right password, ControlPing.
  datatype Request = Listen | Fetch | Ping

  // From server to daemon: ShadowGetListResponse, NotifyUsersChanged, and all the daemon does not answer to.
  datatype Reply = Shadow(users: Users) | UsersChanged | Other

  // The receiving end of the notification channel, which holds one unread notification. A second one before the
  // first is read makes the receiver lag, and the forwarder ends with an error at its next read.
  // hand: the notification the forwarder has read and is about to send.
  datatype Notice = UsersNotice | DnsNotice
  datatype Forwarder = Forwarder(unread: Option<Notice>, hand: Option<Notice>, lagged: bool)

  datatype Handler = Idle | Replying(snapshot: Users)

  // One daemon and its present connection. boot: the packets it still has to send before entering its loop.
  datatype Conn = Conn(
    boot: seq<Request>,
    c2s: seq<Request>,
    s2c: seq<Reply>,
    handler: Handler,
    forwarder: Option<Forwarder>,
    cache: Option<Users>)

  function NewConn(boot: seq<Request>, cache: Option<Users>): Conn {
    Conn(boot, [], [], Idle, None, cache)
  }

  // adding: a registration has pushed its user and still holds the lock.
  datatype State = State(users: Users, adding: bool, conns: map<nat, Conn>)

  // What run_daemon sends first.
  const BOOT := [Listen, Fetch]

  // ---------------------------------------------------------------- steps

  datatype ConnStep =
    | Reconnect      // the connection is lost and a new one made; the cache stays
    | SendBoot       // run_daemon sends its next opening packet
    | SendPing       // the daemon's timer
    | HandleListen   // the server subscribes the connection
    | HandleFetch    // the server takes a snapshot under the user lock
    | HandlePing     // the server ignores a packet
    | SendSnapshot   // and sends it
    | TakeNotice     // the forwarder reads a notification
    | ForwardNotice  // and sends it
    | ForwardPing    // the forwarder's timer
    | Receive        // the daemon handles the next packet

  predicate ConnNext(boot: seq<Request>, users: Users, adding: bool, step: ConnStep, c: Conn, c': Conn) {
    match step
    case Reconnect => c' == NewConn(boot, c.cache)
    case SendBoot => c.boot != [] && c' == c.(boot := c.boot[1..], c2s := c.c2s + [c.boot[0]])
    case SendPing => c.boot == [] && c' == c.(c2s := c.c2s + [Ping])
    case HandleListen =>
      c.handler.Idle? && c.c2s != [] && c.c2s[0] == Listen &&
      c' == c.(c2s := c.c2s[1..], forwarder := Some(Forwarder(None, None, false)))
    case HandleFetch =>
      c.handler.Idle? && c.c2s != [] && c.c2s[0] == Fetch && !adding &&
      c' == c.(c2s := c.c2s[1..], handler := Replying(users))
    case HandlePing => c.handler.Idle? && c.c2s != [] && c.c2s[0] == Ping && c' == c.(c2s := c.c2s[1..])
    case SendSnapshot => c.handler.Replying? && c' == c.(handler := Idle, s2c := c.s2c + [Shadow(c.handler.snapshot)])
    case TakeNotice =>
      c.forwarder.Some? &&
      var f := c.forwarder.value;
      !f.lagged && f.unread.Some? && f.hand.None? && c' == c.(forwarder := Some(Forwarder(None, f.unread, false)))
    case ForwardNotice =>
      c.forwarder.Some? && c.forwarder.value.hand.Some? &&
      c' == c.(forwarder := Some(c.forwarder.value.(hand := None)),
               s2c := c.s2c + [if c.forwarder.value.hand.value.UsersNotice? then UsersChanged else Other])
    case ForwardPing => c.forwarder.Some? && c.forwarder.value.hand.None? && c' == c.(s2c := c.s2c + [Other])
    case Receive =>
      c.boot == [] && c.s2c != [] &&
      var c1 := c.(s2c := c.s2c[1..]);
      c' == match c.s2c[0]
            case Shadow(us) => c1.(cache := Some(us))
            case UsersChanged => c1.(c2s := c.c2s + [Fetch])
            case Other => c1
  }

  // broadcast::Sender::send, for one receiver
  function Notified(c: Conn, n: Notice): Conn {
    if c.forwarder.None? then c
    else
      var f := c.forwarder.value;
      c.(forwarder := Some(if f.unread.Some? then f.(unread := Some(n), lagged := true) else f.(unread := Some(n))))
  }

  function NotifyAll(conns: map<nat, Conn>, n: Notice): map<nat, Conn> {
    map d | d in conns :: Notified(conns[d], n)
  }

  datatype Step =
    | Daemon(d: nat, step: ConnStep)
    | StartDaemon(d: nat)
    | Push(user: LapasUserShadow)   // add_user takes the lock and appends
    | NotifyUsers                   // the index is written, the notification sent, the lock released
    | WriteFails                    // the index is not written, the lock released
    | NotifyDns                     // a host mapping was created

  predicate Init(st: State) {
    !st.adding && st.conns == map[]
  }

  predicate Next(boot: seq<Request>, st: State, step: Step, st': State) {
    match step
    case Daemon(d, s) =>
      d in st.conns && d in st'.conns && ConnNext(boot, st.users, st.adding, s, st.conns[d], st'.conns[d]) &&
      st' == st.(conns := st.conns[d := st'.conns[d]])
    case StartDaemon(d) => d !in st.conns && st' == st.(conns := st.conns[d := NewConn(boot, None)])
    case Push(u) => !st.adding && st' == st.(users := st.users + [u], adding := true)
    case NotifyUsers => st.adding && st' == st.(adding := false, conns := NotifyAll(st.conns, UsersNotice))
    case WriteFails => st.adding && st' == st.(adding := false)
    case NotifyDns => st' == st.(conns := NotifyAll(st.conns, DnsNotice))
  }

  ghost predicate IsRun(boot: seq<Request>, run: seq<State>, steps: seq<Step>) {
    |run| == |steps| + 1 && Init(run[0]) &&
    forall i :: 0 <= i < |steps| ==> Next(boot, run[i], steps[i], run[i + 1])
  }

  // ---------------------------------------------------------------- agreement

  function LastShadow(s2c: seq<Reply>, otherwise: Option<Users>): Option<Users> {
    if s2c == [] then otherwise
    else if s2c[|s2c| - 1].Shadow? then Some(s2c[|s2c| - 1].users)
    else LastShadow(s2c[..|s2c| - 1], otherwise)
  }

  // What the cache will hold when all that is under way has arrived.
  function Eventual(c: Conn): Option<Users> {
    if c.handler.Replying? then Some(c.handler.snapshot) else LastShadow(c.s2c, c.cache)
  }

  predicate Lagged(c: Conn) {
    c.forwarder.Some? && c.forwarder.value.lagged
  }

  predicate NoticeUnderWay(c: Conn) {
    UsersChanged in c.s2c ||
    (c.forwarder.Some? &&
     (c.forwarder.value.unread == Some(UsersNotice) || c.forwarder.value.hand == Some(UsersNotice)))
  }

  // How far a connection has come: the subscription always goes ahead of the first request.
  predicate Staged(c: Conn) {
    || (c.boot == BOOT && c.c2s == [] && c.forwarder.None?)
    || (c.boot == [Fetch] && c.c2s == [Listen] && c.forwarder.None?)
    || (c.boot == [Fetch] && c.c2s == [] && c.forwarder.Some?)
    || (c.boot == [] && |c.c2s| > 1 && c.c2s[0] == Listen && c.c2s[1] == Fetch && Listen !in c.c2s[1..] &&
        c.forwarder.None?)
    || (c.boot == [] && Listen !in c.c2s && c.forwarder.Some?)
  }

  // Either the cache is going to hold the server's list, or something that makes the daemon ask again is under way.
  predicate Fresh(users: Users, adding: bool, c: Conn) {
    adding || c.boot != [] || Fetch in c.c2s || NoticeUnderWay(c) || Eventual(c) == Some(users)
  }

  // unannounced: whether a registration ended without a notification since the connection's last handled request.
  predicate ConnInv(users: Users, adding: bool, unannounced: bool, c: Conn) {
    Staged(c) && (unannounced || Lagged(c) || Fresh(users, adding, c))
  }

  lemma ConnInvStep(users: Users, adding: bool, unannounced: bool, step: ConnStep, c: Conn, c': Conn)
    requires ConnInv(users, adding, unannounced, c) && ConnNext(BOOT, users, adding, step, c, c')
    ensures ConnInv(users, adding, unannounced && !step.HandleFetch?, c')
  {
    StagedStep(users, adding, step, c, c');
    if !unannounced && !Lagged(c') { FreshStep(users, adding, step, c, c'); }
  }

  lemma StagedStep(users: Users, adding: bool, step: ConnStep, c: Conn, c': Conn)
    requires Staged(c) && ConnNext(BOOT, users, adding, step, c, c')
    ensures Staged(c')
  {
  }

  // Taking the first packet off a queue leaves the others.
  lemma OthersStay(c2s: seq<Request>, r: Request)
    requires c2s != [] && c2s[0] != r
    ensures r in c2s <==> r in c2s[1..]
  {
    assert c2s == [c2s[0]] + c2s[1..];
  }

  lemma FreshStep(users: Users, adding: bool, step: ConnStep, c: Conn, c': Conn)
    requires Staged(c) && (Lagged(c) || Fresh(users, adding, c))
    requires ConnNext(BOOT, users, adding, step, c, c') && !Lagged(c')
    ensures Fresh(users, adding, c')
  {
    match step
    case Receive => ReceiveFresh(users, adding, c, c');
    case SendSnapshot =>
      assert c'.s2c[..|c.s2c|] == c.s2c;
      assert UsersChanged in c.s2c ==> UsersChanged in c'.s2c;
    case ForwardNotice => AppendOther(c.s2c, c'.s2c[|c'.s2c| - 1], c.cache);
    case ForwardPing => AppendOther(c.s2c, Other, c.cache);
    case HandlePing => OthersStay(c.c2s, Fetch);
    case HandleListen => OthersStay(c.c2s, Fetch);
    case SendBoot => assert Fetch in c.c2s ==> Fetch in c'.c2s; assert c.boot[0] in c'.c2s;
    case SendPing => assert Fetch in c.c2s ==> Fetch in c'.c2s;
    case _ =>
  }

  lemma AppendOther(s2c: seq<Reply>, r: Reply, cache: Option<Users>)
    requires !r.Shadow?
    ensures LastShadow(s2c + [r], cache) == LastShadow(s2c, cache)
    ensures UsersChanged in s2c + [r] <==> UsersChanged in s2c || r.UsersChanged?
  {
    assert (s2c + [r])[..|s2c|] == s2c;
  }

  lemma {:induction false} DropFirst(s2c: seq<Reply>, cache: Option<Users>)
    requires s2c != []
    ensures LastShadow(s2c, cache) == LastShadow(s2c[1..], if s2c[0].Shadow? then Some(s2c[0].users) else cache)
  {
    if |s2c| > 1 {
      DropFirst(s2c[..|s2c| - 1], cache);
      assert s2c[1..][..|s2c| - 2] == s2c[..|s2c| - 1][1..];
    }
  }

  lemma ReceiveFresh(users: Users, adding: bool, c: Conn, c': Conn)
    requires (Lagged(c) || Fresh(users, adding, c)) && ConnNext(BOOT, users, adding, Receive, c, c') && !Lagged(c')
    ensures Fresh(users, adding, c')
  {
    DropFirst(c.s2c, c.cache);
    if c.s2c[0].UsersChanged? {
      assert c'.c2s[|c.c2s|] == Fetch;
    } else {
      assert c.s2c == [c.s2c[0]] + c'.s2c;
    }
  }

  lemma NotifiedKeeps(users: Users, adding: bool, unannounced: bool, c: Conn, n: Notice)
    requires ConnInv(users, adding, unannounced, c)
    ensures ConnInv(users, n.DnsNotice? && adding, unannounced, Notified(c, n))
  {
  }

  // ---------------------------------------------------------------- since the last handled request

  // How many users were appended after the server last took a snapshot for the daemon.
  function Missed(steps: seq<Step>, d: nat): nat {
    if steps == [] then 0
    else
      var last, before := steps[|steps| - 1], steps[..|steps| - 1];
      if last == Daemon(d, HandleFetch) then 0 else Missed(before, d) + if last.Push? then 1 else 0
  }

  // How many of the registrations after that ended without a notification.
  function Unannounced(steps: seq<Step>, d: nat): nat {
    if steps == [] then 0
    else
      var last, before := steps[|steps| - 1], steps[..|steps| - 1];
      if last == Daemon(d, HandleFetch) then 0 else Unannounced(before, d) + if last.WriteFails? then 1 else 0
  }

  ghost predicate Inv(st: State, past: seq<Step>) {
    forall d :: d in st.conns ==> ConnInv(st.users, st.adding, Unannounced(past, d) > 0, st.conns[d])
  }

  lemma InvStep(st: State, past: seq<Step>, step: Step, st': State)
    requires Inv(st, past) && Next(BOOT, st, step, st')
    ensures Inv(st', past + [step])
  {
    assert (past + [step])[..|past|] == past;
    forall d | d in st'.conns ensures ConnInv(st'.users, st'.adding, Unannounced(past + [step], d) > 0, st'.conns[d]) {
      var unannounced := Unannounced(past, d) > 0;
      match step
      case Daemon(d0, s) =>
        if d == d0 { ConnInvStep(st.users, st.adding, unannounced, s, st.conns[d], st'.conns[d]); }
      case NotifyUsers => NotifiedKeeps(st.users, st.adding, unannounced, st.conns[d], UsersNotice);
      case NotifyDns => NotifiedKeeps(st.users, st.adding, unannounced, st.conns[d], DnsNotice);
      case _ =>
    }
  }

  lemma {:induction false} RunInv(run: seq<State>, steps: seq<Step>, i: nat)
    requires IsRun(BOOT, run, steps) && i < |run|
    ensures Inv(run[i], steps[..i])
  {
    if i > 0 {
      RunInv(run, steps, i - 1);
      TakeSnoc(steps, i - 1);
      InvStep(run[i - 1], steps[..i - 1], steps[i - 1], run[i]);
    }
  }

  // Nothing but pings and host-mapping notices is under way on a connection, and no registration is going on.
  predicate Quiet(st: State, c: Conn) {
    !st.adding && c.boot == [] && Fetch !in c.c2s && c.handler.Idle? && (forall r :: r in c.s2c ==> r.Other?) &&
    (c.forwarder.Some? && !c.forwarder.value.lagged ==> c.forwarder.value.unread != Some(UsersNotice)) &&
    (c.forwarder.Some? ==> c.forwarder.value.hand != Some(UsersNotice))
  }

  // ---------------------------------------------------------------- what a cache holds, exactly

  // The list without its newest entries.
  function AllBut(users: Users, newest: nat): Option<Users> {
    if newest <= |users| then Some(users[..|users| - newest]) else None
  }

  // Once nothing the daemon has asked for is under way, its cache is the list without the users it missed.
  predicate Trails(users: Users, missed: nat, c: Conn) {
    Fetch in c.boot || Fetch in c.c2s || (missed <= |users| && Eventual(c) == AllBut(users, missed))
  }

  lemma TrailsStep(boot: seq<Request>, users: Users, adding: bool, missed: nat, step: ConnStep, c: Conn, c': Conn)
    requires Fetch in boot && Trails(users, missed, c) && ConnNext(boot, users, adding, step, c, c')
    ensures Trails(users, if step.HandleFetch? then 0 else missed, c')
  {
    match step
    case Receive =>
      DropFirst(c.s2c, c.cache);
      if c.s2c[0].UsersChanged? { assert c'.c2s[|c.c2s|] == Fetch; }
    case SendSnapshot => assert c'.s2c[..|c.s2c|] == c.s2c;
    case ForwardNotice => AppendOther(c.s2c, c'.s2c[|c'.s2c| - 1], c.cache);
    case ForwardPing => AppendOther(c.s2c, Other, c.cache);
    case HandlePing => OthersStay(c.c2s, Fetch);
    case HandleListen => OthersStay(c.c2s, Fetch);
    case HandleFetch => assert users[..|users|] == users;
    case SendBoot =>
      assert Fetch in c.c2s ==> Fetch in c'.c2s;
      assert c.boot == [c.boot[0]] + c'.boot && c'.c2s[|c.c2s|] == c.boot[0];
    case SendPing => assert Fetch in c.c2s ==> Fetch in c'.c2s;
    case _ =>
  }

  lemma TrailsNext(boot: seq<Request>, st: State, past: seq<Step>, step: Step, st': State, d: nat)
    requires Fetch in boot && Next(boot, st, step, st') && d in st'.conns
    requires d in st.conns ==> Trails(st.users, Missed(past, d), st.conns[d])
    ensures Trails(st'.users, Missed(past + [step], d), st'.conns[d])
  {
    assert (past + [step])[..|past|] == past;
    match step
    case Daemon(d0, s) =>
      if d == d0 { TrailsStep(boot, st.users, st.adding, Missed(past, d), s, st.conns[d], st'.conns[d]); }
    case Push(u) =>
      var kept := |st.users| - Missed(past, d);
      if kept >= 0 { assert st'.users[..kept] == st.users[..kept]; }
    case _ =>
  }

  lemma {:induction false} TrailsRun(boot: seq<Request>, run: seq<State>, steps: seq<Step>, i: nat, d: nat)
    requires Fetch in boot && IsRun(boot, run, steps) && i < |run| && d in run[i].conns
    ensures Trails(run[i].users, Missed(steps[..i], d), run[i].conns[d])
  {
    if i > 0 {
      TakeSnoc(steps, i - 1);
      if d in run[i - 1].conns { TrailsRun(boot, run, steps, i - 1, d); }
      TrailsNext(boot, run[i - 1], steps[..i - 1], steps[i - 1], run[i], d);
    }
  }

  // No request of the daemon and no answer to it is under way.
  predicate Unasked(c: Conn) {
    Fetch !in c.boot && Fetch !in c.c2s && c.handler.Idle? && forall r :: r in c.s2c ==> !r.Shadow?
  }

  lemma {:induction false} NoShadows(s2c: seq<Reply>, cache: Option<Users>)
    requires forall r :: r in s2c ==> !r.Shadow?
    ensures LastShadow(s2c, cache) == cache
  {
    if s2c != [] {
      assert s2c[|s2c| - 1] in s2c;
      NoShadows(s2c[..|s2c| - 1], cache);
    }
  }

  // In every run, whatever the opening order, lags and failures, a daemon with no request under way holds exactly
  // the server's list without the users appended since its last request was handled. So it agrees with the server
  // if and only if there are none.
  lemma UnaskedExact(boot: seq<Request>, run: seq<State>, steps: seq<Step>, i: nat, d: nat)
    requires Fetch in boot && IsRun(boot, run, steps) && i < |run| && d in run[i].conns && Unasked(run[i].conns[d])
    ensures run[i].conns[d].cache == AllBut(run[i].users, Missed(steps[..i], d))
    ensures run[i].conns[d].cache == Some(run[i].users) <==> Missed(steps[..i], d) == 0
  {
    TrailsRun(boot, run, steps, i, d);
    NoShadows(run[i].conns[d].s2c, run[i].conns[d].cache);
    var users, missed := run[i].users, Missed(steps[..i], d);
    assert missed == 0 ==> users[..|users| - missed] == users;
    assert missed > 0 ==> |users[..|users| - missed]| < |users|;
  }

  // A registration that ended unannounced after the snapshot also began after it: snapshots wait for the lock.
  lemma {:induction false} UnannouncedAreMissed(boot: seq<Request>, run: seq<State>, steps: seq<Step>, i: nat, d: nat)
    requires IsRun(boot, run, steps) && i < |run|
    ensures Unannounced(steps[..i], d) + (if run[i].adding then 1 else 0) <= Missed(steps[..i], d)
  {
    if i > 0 {
      UnannouncedAreMissed(boot, run, steps, i - 1, d);
      TakeSnoc(steps, i - 1);
    }
  }

  // A connection with nothing under way whose receiver has not lagged agrees with the server if and only if no
  // registration since its last request ended without a notification.
  lemma QuietAgrees(run: seq<State>, steps: seq<Step>, i: nat, d: nat)
    requires IsRun(BOOT, run, steps) && i < |run| && d in run[i].conns && Quiet(run[i], run[i].conns[d])
    requires !Lagged(run[i].conns[d])
    ensures run[i].conns[d].cache == Some(run[i].users) <==> Unannounced(steps[..i], d) == 0
  {
    RunInv(run, steps, i);
    NoShadows(run[i].conns[d].s2c, run[i].conns[d].cache);
    UnaskedExact(BOOT, run, steps, i, d);
    UnannouncedAreMissed(BOOT, run, steps, i, d);
  }

  // ---------------------------------------------------------------- after a lag

  // A connection on which nothing can make the daemon ask again.
  predicate Deaf(c: Conn) {
    c.boot == [] && Fetch !in c.c2s && Listen !in c.c2s && c.handler.Idle? && (forall r :: r in c.s2c ==> r.Other?) &&
    Lagged(c) && c.forwarder.value.hand != Some(UsersNotice)
  }

  lemma DeafConnStep(users: Users, adding: bool, step: ConnStep, c: Conn, c': Conn)
    requires Deaf(c) && ConnNext(BOOT, users, adding, step, c, c') && !step.Reconnect?
    ensures Deaf(c') && c'.cache == c.cache
  {
    if step.HandlePing? { OthersStay(c.c2s, Fetch); OthersStay(c.c2s, Listen); }
    if step.Receive? { assert c.s2c[0] in c.s2c; }
  }

  lemma DeafStep(st: State, step: Step, st': State, d: nat)
    requires Next(BOOT, st, step, st') && d in st.conns && Deaf(st.conns[d]) && step != Daemon(d, Reconnect)
    ensures d in st'.conns && Deaf(st'.conns[d]) && st'.conns[d].cache == st.conns[d].cache && st.users <= st'.users
  {
    if step.Daemon? && step.d == d { DeafConnStep(st.users, st.adding, step.step, st.conns[d], st'.conns[d]); }
  }

  lemma {:induction false} StaysDeaf(run: seq<State>, steps: seq<Step>, i: nat, j: nat, d: nat)
    requires IsRun(BOOT, run, steps) && i <= j < |run| && d in run[i].conns && Deaf(run[i].conns[d])
    requires forall k :: i <= k < j ==> steps[k] != Daemon(d, Reconnect)
    ensures d in run[j].conns && Deaf(run[j].conns[d]) && run[j].conns[d].cache == run[i].conns[d].cache
    ensures run[i].users <= run[j].users
    decreases j
  {
    if i < j {
      StaysDeaf(run, steps, i, j - 1, d);
      DeafStep(run[j - 1], steps[j - 1], run[j], d);
    }
  }

  // A quiet connection whose receiver has lagged keeps its cache until it is replaced, whatever happens; a cache
  // that is old stays old.
  lemma LagLasts(run: seq<State>, steps: seq<Step>, i: nat, j: nat, d: nat)
    requires IsRun(BOOT, run, steps) && i <= j < |run| && d in run[i].conns
    requires Quiet(run[i], run[i].conns[d]) && Lagged(run[i].conns[d])
    requires forall k :: i <= k < j ==> steps[k] != Daemon(d, Reconnect)
    ensures d in run[j].conns && run[j].conns[d].cache == run[i].conns[d].cache
    ensures run[i].conns[d].cache != Some(run[i].users) ==> run[j].conns[d].cache != Some(run[j].users)
  {
    RunInv(run, steps, i);
    StaysDeaf(run, steps, i, j, d);
    UnaskedExact(BOOT, run, steps, i, d);
  }

  // ---------------------------------------------------------------- caches only grow

  // The lists a connection holds, oldest first.
  function Views(c: Conn): seq<Users> {
    Held(c.cache) + Shadows(c.s2c) + InHand(c.handler)
  }

  function Shadows(s2c: seq<Reply>): seq<Users> {
    if s2c == [] then [] else (if s2c[0].Shadow? then [s2c[0].users] else []) + Shadows(s2c[1..])
  }

  // Each list is a prefix of the next, and the last of the server's.
  predicate Chained(views: seq<Users>, users: Users) {
    (forall i, j :: 0 <= i < j < |views| ==> views[i] <= views[j]) && forall i :: 0 <= i < |views| ==> views[i] <= users
  }

  lemma {:induction false} ShadowsConcat(a: seq<Reply>, b: seq<Reply>)
    ensures Shadows(a + b) == Shadows(a) + Shadows(b)
  {
    if a == [] {
      assert a + b == b;
    } else {
      assert (a + b)[1..] == a[1..] + b;
      ShadowsConcat(a[1..], b);
    }
  }

  function Held(cache: Option<Users>): seq<Users> {
    if cache.Some? then [cache.value] else []
  }

  function InHand(handler: Handler): seq<Users> {
    if handler.Replying? then [handler.snapshot] else []
  }

  lemma ViewsSend(c: Conn, r: Reply, handler: Handler)
    requires if r.Shadow? then c.handler == Replying(r.users) && handler == Idle else handler == c.handler
    ensures Held(c.cache) + Shadows(c.s2c + [r]) + InHand(handler) == Views(c)
  {
    ShadowsConcat(c.s2c, [r]);
    assert Shadows([r]) == if r.Shadow? then [r.users] else [];
  }

  lemma ViewsReceive(c: Conn, c': Conn)
    requires c.s2c != [] && c'.s2c == c.s2c[1..] && c'.handler == c.handler
    requires c'.cache == if c.s2c[0].Shadow? then Some(c.s2c[0].users) else c.cache
    ensures Views(c') == Views(c) || (Views(c) != [] && Views(c') == Views(c)[1..])
  {
    assert Shadows(c.s2c) == (if c.s2c[0].Shadow? then [c.s2c[0].users] else []) + Shadows(c'.s2c);
  }

  // How the lists of a connection change in one step: one is added at the end, or one is dropped at the front
  // or, with the connection, all but the cache.
  lemma ViewsStep(boot: seq<Request>, users: Users, adding: bool, step: ConnStep, c: Conn, c': Conn)
    requires ConnNext(boot, users, adding, step, c, c')
    ensures Views(c') == Views(c) || Views(c') == Views(c) + [users] || Views(c') <= Views(c) ||
            (Views(c) != [] && Views(c') == Views(c)[1..])
  {
    match step
    case SendSnapshot => ViewsSend(c, Shadow(c.handler.snapshot), Idle);
    case ForwardNotice => ViewsSend(c, c'.s2c[|c.s2c|], c.handler);
    case ForwardPing => ViewsSend(c, Other, c.handler);
    case Receive => ViewsReceive(c, c');
    case _ =>
  }

  predicate ViewsInv(users: Users, c: Conn) {
    Chained(Views(c), users)
  }

  lemma ChainedStep(views: seq<Users>, views': seq<Users>, users: Users)
    requires Chained(views, users)
    requires views' == views || views' == views + [users] || views' <= views || (views != [] && views' == views[1..])
    ensures Chained(views', users)
  {
  }

  lemma ViewsConnStep(boot: seq<Request>, users: Users, adding: bool, step: ConnStep, c: Conn, c': Conn)
    requires ConnNext(boot, users, adding, step, c, c') && ViewsInv(users, c)
    ensures ViewsInv(users, c')
  {
    ViewsStep(boot, users, adding, step, c, c');
    ChainedStep(Views(c), Views(c'), users);
  }

  // Notices and further users leave the lists of a connection as they are.
  lemma ViewsNotified(users: Users, c: Conn, n: Notice)
    requires ViewsInv(users, c)
    ensures ViewsInv(users, Notified(c, n))
  {
    assert Views(Notified(c, n)) == Views(c);
  }

  lemma ViewsPushed(users: Users, u: LapasUserShadow, c: Conn)
    requires ViewsInv(users, c)
    ensures ViewsInv(users + [u], c)
  {
  }

  lemma ViewsInvStep(boot: seq<Request>, st: State, step: Step, st': State)
    requires Next(boot, st, step, st') && forall d :: d in st.conns ==> ViewsInv(st.users, st.conns[d])
    ensures forall d :: d in st'.conns ==> ViewsInv(st'.users, st'.conns[d])
  {
    forall d | d in st'.conns ensures ViewsInv(st'.users, st'.conns[d]) {
      match step
      case Daemon(d0, s) =>
        if d == d0 { ViewsConnStep(boot, st.users, st.adding, s, st.conns[d], st'.conns[d]); }
      case StartDaemon(d0) => if d == d0 { assert Views(st'.conns[d]) == []; }
      case Push(u) => ViewsPushed(st.users, u, st.conns[d]);
      case NotifyUsers => ViewsNotified(st.users, st.conns[d], UsersNotice);
      case NotifyDns => ViewsNotified(st.users, st.conns[d], DnsNotice);
      case WriteFails =>
    }
  }

  lemma {:induction false} ViewsRun(boot: seq<Request>, run: seq<State>, steps: seq<Step>, i: nat)
    requires IsRun(boot, run, steps) && i < |run|
    ensures forall d :: d in run[i].conns ==> ViewsInv(run[i].users, run[i].conns[d])
  {
    if i > 0 {
      ViewsRun(boot, run, steps, i - 1);
      ViewsInvStep(boot, run[i - 1], steps[i - 1], run[i]);
    }
  }

  // The cached list, the empty one before the first answer.
  function Cached(c: Conn): Users {
    c.cache.GetOr([])
  }

  // The cache and the list that arrives next are neighbours.
  lemma ViewsFront(c: Conn)
    requires c.cache.Some? && c.s2c != [] && c.s2c[0].Shadow?
    ensures |Views(c)| > 1 && Views(c)[0] == c.cache.value && Views(c)[1] == c.s2c[0].users
  {
  }

  lemma CacheStep(boot: seq<Request>, users: Users, adding: bool, step: ConnStep, c: Conn, c': Conn)
    requires ConnNext(boot, users, adding, step, c, c') && ViewsInv(users, c)
    ensures Cached(c) <= Cached(c')
  {
    if step.Receive? {
      if c.s2c[0].Shadow? && c.cache.Some? { ViewsFront(c); }
    } else {
      assert c'.cache == c.cache;
    }
  }

  lemma CacheIsPrefix(users: Users, c: Conn)
    requires ViewsInv(users, c)
    ensures Cached(c) <= users
  {
    if c.cache.Some? { assert Views(c)[0] == c.cache.value; }
  }

  lemma CachesGrow(boot: seq<Request>, st: State, step: Step, st': State, d: nat)
    requires Next(boot, st, step, st') && d in st.conns && ViewsInv(st.users, st.conns[d])
    ensures d in st'.conns && Cached(st.conns[d]) <= Cached(st'.conns[d])
  {
    if step.Daemon? && step.d == d { CacheStep(boot, st.users, st.adding, step.step, st.conns[d], st'.conns[d]); }
  }

  // Over any number of reconnections, lags and failed writes, whatever the order of the opening packets, a
  // daemon's cache is a prefix of the server's list and never loses an entry.
  lemma {:induction false} CachesOnlyGrow(boot: seq<Request>, run: seq<State>, steps: seq<Step>, i: nat, j: nat, d: nat)
    requires IsRun(boot, run, steps) && i <= j < |run| && d in run[i].conns
    ensures d in run[j].conns && Cached(run[i].conns[d]) <= Cached(run[j].conns[d]) <= run[j].users
    decreases j
  {
    if i < j {
      CachesOnlyGrow(boot, run, steps, i, j - 1, d);
      ViewsRun(boot, run, steps, j - 1);
      CachesGrow(boot, run[j - 1], steps[j - 1], run[j], d);
    }
    ViewsRun(boot, run, steps, j);
    CacheIsPrefix(run[j].users, run[j].conns[d]);
  }

  // ---------------------------------------------------------------- what agreement rests on

  function One(users: Users, adding: bool, c: Conn): State {
    State(users, adding, map[0 := c])
  }

  ghost predicate Leads(boot: seq<Request>, run: seq<State>, steps: seq<Step>, st: State) {
    IsRun(boot, run, steps) && run[|run| - 1] == st
  }

  // One more step; only a failed write adds an unannounced registration.
  lemma Go(boot: seq<Request>, run: seq<State>, steps: seq<Step>, st: State, step: Step, st': State)
      returns (run': seq<State>, steps': seq<Step>)
    requires Leads(boot, run, steps, st) && Next(boot, st, step, st')
    ensures Leads(boot, run', steps', st')
    ensures !step.WriteFails? && Unannounced(steps, 0) == 0 ==> Unannounced(steps', 0) == 0
  {
    run', steps' := run + [st'], steps + [step];
    assert steps'[..|steps|] == steps;
  }

  lemma Begin(boot: seq<Request>) returns (run: seq<State>, steps: seq<Step>)
    ensures Leads(boot, run, steps, One([], false, NewConn(boot, None))) && Unannounced(steps, 0) == 0
  {
    run, steps := [State([], false, map[])], [];
    run, steps := Go(boot, run, steps, run[0], StartDaemon(0), One([], false, NewConn(boot, None)));
  }

  lemma GoDaemon(boot: seq<Request>, run: seq<State>, steps: seq<Step>, users: Users, s: ConnStep, c: Conn, c': Conn)
      returns (run': seq<State>, steps': seq<Step>)
    requires Leads(boot, run, steps, One(users, false, c)) && ConnNext(boot, users, false, s, c, c')
    ensures Leads(boot, run', steps', One(users, false, c'))
    ensures Unannounced(steps, 0) == 0 ==> Unannounced(steps', 0) == 0
  {
    assert One(users, false, c).conns[0 := c'] == One(users, false, c').conns;
    run', steps' := Go(boot, run, steps, One(users, false, c), Daemon(0, s), One(users, false, c'));
  }

  lemma GoRegister(boot: seq<Request>, run: seq<State>, steps: seq<Step>, users: Users, u: LapasUserShadow, c: Conn)
      returns (run': seq<State>, steps': seq<Step>)
    requires Leads(boot, run, steps, One(users, false, c))
    ensures Leads(boot, run', steps', One(users + [u], false, Notified(c, UsersNotice)))
    ensures Unannounced(steps, 0) == 0 ==> Unannounced(steps', 0) == 0
  {
    var c' := Notified(c, UsersNotice);
    assert NotifyAll(map[0 := c], UsersNotice) == map[0 := c'];
    run', steps' := Go(boot, run, steps, One(users, false, c), Push(u), One(users + [u], true, c));
    run', steps' := Go(boot, run', steps', One(users + [u], true, c), NotifyUsers, One(users + [u], false, c'));
  }

  lemma GoWriteFails(run: seq<State>, steps: seq<Step>, users: Users, u: LapasUserShadow, c: Conn)
      returns (run': seq<State>, steps': seq<Step>)
    requires Leads(BOOT, run, steps, One(users, false, c))
    ensures Leads(BOOT, run', steps', One(users + [u], false, c))
  {
    run', steps' := Go(BOOT, run, steps, One(users, false, c), Push(u), One(users + [u], true, c));
    run', steps' := Go(BOOT, run', steps', One(users + [u], true, c), WriteFails, One(users + [u], false, c));
  }

  // A run that ends quietly with a cache the server has moved past.
  ghost predicate EndsStale(boot: seq<Request>, run: seq<State>, steps: seq<Step>, unannounced: bool, lagged: bool) {
    IsRun(boot, run, steps) &&
    var st := run[|run| - 1];
    0 in st.conns && Quiet(st, st.conns[0]) && st.conns[0].cache != Some(st.users) &&
    (Unannounced(steps, 0) > 0 <==> unannounced) && (Lagged(st.conns[0]) <==> lagged)
  }

  // Asking for the snapshot before subscribing loses a user registered in between.
  lemma FetchBeforeListenIsStale(u: LapasUserShadow) returns (run: seq<State>, steps: seq<Step>)
    ensures EndsStale([Fetch, Listen], run, steps, false, false)
  {
    var boot := [Fetch, Listen];
    var c0 := NewConn(boot, None);
    var c1 := c0.(boot := [Listen], c2s := [Fetch]);
    var c2 := c0.(boot := [], c2s := [Fetch, Listen]);
    var c3 := c2.(c2s := [Listen], handler := Replying([]));
    var c4 := c3.(handler := Idle, s2c := [Shadow([])]);
    var c5 := c4.(c2s := [], forwarder := Some(Forwarder(None, None, false)));
    var c6 := c5.(s2c := [], cache := Some([]));
    run, steps := Begin(boot);
    run, steps := GoDaemon(boot, run, steps, [], SendBoot, c0, c1);
    run, steps := GoDaemon(boot, run, steps, [], SendBoot, c1, c2);
    run, steps := GoDaemon(boot, run, steps, [], HandleFetch, c2, c3);
    run, steps := GoDaemon(boot, run, steps, [], SendSnapshot, c3, c4);
    run, steps := GoRegister(boot, run, steps, [], u, c4);
    run, steps := GoDaemon(boot, run, steps, [] + [u], HandleListen, c4, c5);
    run, steps := GoDaemon(boot, run, steps, [] + [u], Receive, c5, c6);
  }

  // A daemon that has subscribed and received the empty list.
  const UP_TO_DATE := Conn([], [], [], Idle, Some(Forwarder(None, None, false)), Some([]))

  lemma GoUpToDate() returns (run: seq<State>, steps: seq<Step>)
    ensures Leads(BOOT, run, steps, One([], false, UP_TO_DATE)) && Unannounced(steps, 0) == 0
  {
    var c0 := NewConn(BOOT, None);
    var c1 := c0.(boot := [Fetch], c2s := [Listen]);
    var c2 := c0.(boot := [], c2s := [Listen, Fetch]);
    var c3 := c2.(c2s := [Fetch], forwarder := Some(Forwarder(None, None, false)));
    var c4 := c3.(c2s := [], handler := Replying([]));
    var c5 := c4.(handler := Idle, s2c := [Shadow([])]);
    run, steps := Begin(BOOT);
    run, steps := GoDaemon(BOOT, run, steps, [], SendBoot, c0, c1);
    run, steps := GoDaemon(BOOT, run, steps, [], SendBoot, c1, c2);
    run, steps := GoDaemon(BOOT, run, steps, [], HandleListen, c2, c3);
    run, steps := GoDaemon(BOOT, run, steps, [], HandleFetch, c3, c4);
    run, steps := GoDaemon(BOOT, run, steps, [], SendSnapshot, c4, c5);
    run, steps := GoDaemon(BOOT, run, steps, [], Receive, c5, UP_TO_DATE);
  }

  // Two registrations before the forwarder reads once: the channel holds one notification, the receiver lags, and
  // the daemon is never told.
  lemma LagIsStale(u: LapasUserShadow, v: LapasUserShadow) returns (run: seq<State>, steps: seq<Step>)
    ensures EndsStale(BOOT, run, steps, false, true)
  {
    run, steps := GoUpToDate();
    run, steps := GoRegister(BOOT, run, steps, [], u, UP_TO_DATE);
    run, steps := GoRegister(BOOT, run, steps, [] + [u], v, Notified(UP_TO_DATE, UsersNotice));
  }

  // One registration that cannot be written: the user is in the list and nobody is told.
  lemma WriteFailsIsStale(u: LapasUserShadow) returns (run: seq<State>, steps: seq<Step>)
    ensures EndsStale(BOOT, run, steps, true, false)
  {
    run, steps := GoUpToDate();
    run, steps := GoWriteFails(run, steps, [], u, UP_TO_DATE);
    TakeFull(steps);
    QuietAgrees(run, steps, |steps|, 0);
  }
}
