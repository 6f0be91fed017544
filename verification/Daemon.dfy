// The daemon of a guest machine, packet by packet, and how it and the server's handler carry out the steps of
// module CacheSync.
module Daemon {
  import opened Wrappers
  import opened Protocol
  import CacheSync
  import Server
  import Users

  // What a packet from the server is to the daemon.
  function ReplyOf(p: LapasProtocol): CacheSync.Reply {
    match p
    case ShadowGetListResponse(Ok(us)) => CacheSync.Shadow(us)
    case NotifyUsersChanged => CacheSync.UsersChanged
    case _ => CacheSync.Other
  }

  // What a packet from the daemon is to the server.
  function RequestOf(p: LapasProtocol): CacheSync.Request {
    match p
    case ControlListenEvents => CacheSync.Listen
    case ShadowGetList(_) => CacheSync.Fetch
    case _ => CacheSync.Ping
  }

  function RequestsOf(ps: seq<LapasProtocol>): seq<CacheSync.Request> {
    seq(|ps|, i requires 0 <= i < |ps| => RequestOf(ps[i]))
  }

  class Daemon {
    const auth: ApiAuth
    var cache: Option<CacheSync.Users>

    constructor (auth: ApiAuth)
      ensures this.auth == auth && cache == None
    {
      this.auth, cache := auth, None;
    }

    // What run_daemon sends once the handshake is over.
    method Open() returns (sent: seq<LapasProtocol>)
      ensures sent == [ControlListenEvents, ShadowGetList(auth)] && RequestsOf(sent) == CacheSync.BOOT
    {
      sent := [ControlListenEvents];
      sent := sent + [ShadowGetList(auth)];
    }

    // The timer in the loop of run_daemon, which on every connection is the step SendPing.
    method Tick() returns (sent: seq<LapasProtocol>)
      ensures sent == [ControlPing]
      ensures forall boot, users, adding, c: CacheSync.Conn | c.boot == [] ::
                CacheSync.ConnNext(boot, users, adding, CacheSync.SendPing, c, c.(c2s := c.c2s + RequestsOf(sent)))
    {
      sent := [ControlPing];
      assert RequestsOf([ControlPing]) == [CacheSync.Ping];
    }

    // One packet in the loop of run_daemon. Only a refused list ends the connection; on every connection that has
    // this packet in front the handling is the step Receive.
    method Handle(p: LapasProtocol) returns (sent: seq<LapasProtocol>, failed: bool)
      modifies this
      ensures failed <==> p.ShadowGetListResponse? && p.shadows.Err?
      ensures failed ==> cache == old(cache) && sent == []
      ensures p == NotifyUsersChanged ==> sent == [ShadowGetList(auth)] && cache == old(cache)
      ensures p.ShadowGetListResponse? && p.shadows.Ok? ==> sent == [] && cache == Some(p.shadows.value)
      ensures p != NotifyUsersChanged && !p.ShadowGetListResponse? ==> sent == [] && cache == old(cache)
      ensures !failed ==>
                forall boot, users, adding, c: CacheSync.Conn |
                  c.boot == [] && c.cache == old(cache) && c.s2c != [] && c.s2c[0] == ReplyOf(p) ::
                  CacheSync.ConnNext(boot, users, adding, CacheSync.Receive, c,
                                     c.(s2c := c.s2c[1..], cache := cache, c2s := c.c2s + RequestsOf(sent)))
    {
      sent, failed := [], false;
      match p
      case NotifyUsersChanged => sent := [ShadowGetList(auth)];
      case ShadowGetListResponse(result) =>
        if result.Ok? { cache := Some(result.value); } else { failed := true; }
      case _ =>
      assert RequestsOf([ShadowGetList(auth)]) == [CacheSync.Fetch];
      assert forall s: seq<CacheSync.Request> :: s + RequestsOf([]) == s;
    }

    // The local socket, after its handshake: the list without hashes for anyone, the whole list for the password.
    // looks: what the cache holds each time it is looked at.
    method AnswerLocal(p: LapasProtocol, looks: seq<Option<CacheSync.Users>>) returns (sent: seq<LapasProtocol>)
      requires |looks| == 50
      ensures p.PasswdGetList? ==>
                |sent| == 1 && sent[0].PasswdGetListResponse? && sent[0].passwds.Ok? &&
                var us, all := sent[0].passwds.value, FirstList(looks);
                |us| == |all| && forall k :: 0 <= k < |us| ==> us[k] == LapasUserPasswd(all[k].id, all[k].name)
      ensures p == ShadowGetList(auth) ==> sent == [ShadowGetListResponse(Ok(FirstList(looks)))]
      ensures !p.PasswdGetList? && p != ShadowGetList(auth) ==> sent == []
    {
      sent := [];
      match p
      case PasswdGetList =>
        var users := GetUsers(looks);
        sent := [PasswdGetListResponse(Ok(seq(|users|, i requires 0 <= i < |users| =>
                   LapasUserPasswd(users[i].id, users[i].name))))];
      case ShadowGetList(given) =>
        if given == auth {
          var users := GetUsers(looks);
          sent := [ShadowGetListResponse(Ok(users))];
        }
      case _ =>
    }
  }

  // The first list found, or the empty one.
  function FirstList(looks: seq<Option<CacheSync.Users>>): CacheSync.Users {
    if looks == [] then [] else if looks[0].Some? then looks[0].value else FirstList(looks[1..])
  }

  // UserCache::get, which looks at the cache fifty times, every tenth of a second.
  method GetUsers(looks: seq<Option<CacheSync.Users>>) returns (users: CacheSync.Users)
    requires |looks| == 50
    ensures users == FirstList(looks)
  {
    for i := 0 to 50
      invariant FirstList(looks) == FirstList(looks[i..])
    {
      if looks[i].Some? { return looks[i].value; }
      assert looks[i..][1..] == looks[i + 1..];
    }
    return [];
  }

  // What the local service hands out, looking at the cache at any later and later moments of a run, is a prefix of
  // the server's list, and begins with everything the cache held when the first look was taken.
  lemma {:induction false} LocalListIsPrefix(boot: seq<CacheSync.Request>, run: seq<CacheSync.State>,
      steps: seq<CacheSync.Step>, d: nat, times: seq<nat>, looks: seq<Option<CacheSync.Users>>, now: nat)
    requires CacheSync.IsRun(boot, run, steps) && now < |run| && d in run[now].conns && |looks| == |times|
    requires forall k :: 0 <= k < |times| ==> now <= times[k] < |run|
    requires forall j, k :: 0 <= j < k < |times| ==> times[j] <= times[k]
    requires forall k :: 0 <= k < |times| ==> d in run[times[k]].conns && looks[k] == run[times[k]].conns[d].cache
    ensures FirstList(looks) <= run[|run| - 1].users
    ensures times != [] ==> CacheSync.Cached(run[now].conns[d]) <= FirstList(looks)
  {
    if times != [] {
      CacheSync.CachesOnlyGrow(boot, run, steps, now, times[0], d);
      CacheSync.CachesOnlyGrow(boot, run, steps, times[0], |run| - 1, d);
      if looks[0].None? { LocalListIsPrefix(boot, run, steps, d, times[1..], looks[1..], now); }
    }
  }

  // ---------------------------------------------------------------- the server's side

  function RepliesOf(ps: seq<LapasProtocol>): seq<CacheSync.Reply> {
    seq(|ps|, i requires 0 <= i < |ps| => ReplyOf(ps[i]))
  }

  // What a daemon with the right password sends.
  predicate FromDaemon(setup: Server.Setup, p: LapasProtocol) {
    p.ControlListenEvents? || p.ControlPing? || (p.ShadowGetList? && setup.check(p.auth))
  }

  // So are the packets that the daemon's methods send.
  lemma SentByDaemon(setup: Server.Setup, auth: ApiAuth)
    requires setup.check(auth)
    ensures forall p :: p in [ControlListenEvents, ControlPing, ShadowGetList(auth)] ==> FromDaemon(setup, p)
  {
  }

  // The connection once the handler has taken the packet in front and sent its replies.
  function Served(c: CacheSync.Conn, p: LapasProtocol, replies: seq<LapasProtocol>): CacheSync.Conn
    requires c.c2s != []
  {
    var forwarder := Some(CacheSync.Forwarder(None, None, false));
    c.(c2s := c.c2s[1..], s2c := c.s2c + RepliesOf(replies),
       forwarder := if Server.Subscribes(Server.Serving, p) then forwarder else c.forwarder)
  }

  // On every connection with the packet in front, the handler carries out HandleListen, HandlePing, or HandleFetch
  // and, whatever has happened to the list in between, SendSnapshot.
  lemma ServingIsModelled(boot: seq<CacheSync.Request>, setup: Server.Setup, users: seq<Users.UserIndexEntry>,
      w: Server.World, p: LapasProtocol, c: CacheSync.Conn) returns (mid: CacheSync.Conn)
    requires FromDaemon(setup, p) && c.handler.Idle? && c.c2s != [] && c.c2s[0] == RequestOf(p)
    ensures var r := Server.React(Server.Serving, setup, users, w, p);
            var c', list := Served(c, p, r.replies), Users.ShadowAll(users);
            r.phase == Server.Serving && Server.UsersAfter(Server.Serving, setup, users, w, p) == users &&
            Server.Notification(Server.Serving, setup, users, w, p) == [] &&
            match p
            case ControlListenEvents => CacheSync.ConnNext(boot, list, false, CacheSync.HandleListen, c, c')
            case ShadowGetList(_) =>
              CacheSync.ConnNext(boot, list, false, CacheSync.HandleFetch, c, mid) &&
              forall later, adding :: CacheSync.ConnNext(boot, later, adding, CacheSync.SendSnapshot, mid, c')
            case _ => CacheSync.ConnNext(boot, list, false, CacheSync.HandlePing, c, c')
  {
    mid := c.(c2s := c.c2s[1..], handler := CacheSync.Replying(Users.ShadowAll(users)));
    assert c.s2c + [] == c.s2c;
    var r := Server.React(Server.Serving, setup, users, w, p);
    if p.ShadowGetList? {
      assert RepliesOf(r.replies) == [CacheSync.Shadow(Users.ShadowAll(users))];
    } else {
      assert RepliesOf(r.replies) == [];
    }
  }

  // A packet handled by the server is, on the shadow list and every daemon's channel, nothing, a notice about host
  // mappings, or the two steps of a registration: the push and then either the notification or the failed write.
  lemma HandlingIsModelled(boot: seq<CacheSync.Request>, st: CacheSync.State, phase: Server.Phase, setup: Server.Setup,
                           users: seq<Users.UserIndexEntry>, w: Server.World, p: LapasProtocol)
      returns (mid: CacheSync.State)
    requires st.users == Users.ShadowAll(users) && !st.adding
    ensures var after := Users.ShadowAll(Server.UsersAfter(phase, setup, users, w, p));
            var notes := Server.Notification(phase, setup, users, w, p);
            if notes == [NotifyDnsMappingsChanged] then
              after == st.users &&
              CacheSync.Next(boot, st, CacheSync.NotifyDns,
                             st.(conns := CacheSync.NotifyAll(st.conns, CacheSync.DnsNotice)))
            else if after == st.users then notes == []
            else
              |after| == |st.users| + 1 && CacheSync.Next(boot, st, CacheSync.Push(after[|st.users|]), mid) &&
              if notes == [NotifyUsersChanged] then
                CacheSync.Next(boot, mid, CacheSync.NotifyUsers,
                               CacheSync.State(after, false, CacheSync.NotifyAll(st.conns, CacheSync.UsersNotice)))
              else
                notes == [] && CacheSync.Next(boot, mid, CacheSync.WriteFails, CacheSync.State(after, false, st.conns))
  {
    Server.ListChangesAreAnnounced(phase, setup, users, w, p);
    var all := Server.UsersAfter(phase, setup, users, w, p);
    var after := Users.ShadowAll(all);
    mid := st.(users := after, adding := true);
    if |after| == |st.users| + 1 {
      assert after == st.users + [after[|st.users|]];
    } else {
      assert all == users;
    }
  }
}
