// What stands in the replies of a connection, kind by kind of request, and that a well-behaved client is always
// answered.
module Transcripts {
  import opened Wrappers
  import opened Protocol
  import opened Server
  import opened Conversation
  import Users

  // ---------------------------------------------------------------- requests and responses by name

  predicate AsksWithPassword(p: LapasProtocol) {
    p.ControlCheckAuth? || p.UserRegister? || p.UserDnsMapping? || p.ShadowGetList?
  }

  lemma RequestsByName(p: LapasProtocol)
    ensures IsRequest(p) <==> p.PasswdGetList? || AsksWithPassword(p)
  {
  }

  lemma AnswersByName(q: LapasProtocol, a: LapasProtocol)
    requires IsRequest(q)
    ensures Answers(q, a) <==>
            match q
            case ControlCheckAuth(_) => a.ControlCheckAuthResponse?
            case UserRegister(_, _, _) => a.UserRegisterResponse?
            case UserDnsMapping(_, _) => a.UserDnsMappingResponse?
            case PasswdGetList => a.PasswdGetListResponse?
            case ShadowGetList(_) => a.ShadowGetListResponse?
  {
  }

  // The response says that the request was granted.
  predicate Grants(a: LapasProtocol) {
    (a.ControlCheckAuthResponse? && a.result.Ok?) || (a.UserRegisterResponse? && a.result.Ok?) ||
    (a.UserDnsMappingResponse? && a.result.Ok?) || (a.PasswdGetListResponse? && a.passwds.Ok?) ||
    (a.ShadowGetListResponse? && a.shadows.Ok?)
  }

  // ---------------------------------------------------------------- the round behind each reply

  lemma SnocPhase(init: seq<Round>, r: Round, i: nat)
    requires i <= |init|
    ensures PhaseBefore(init + [r], i) == PhaseBefore(init, i)
    ensures (init + [r])[i] == if i < |init| then init[i] else r
  {
  }

  lemma TranscriptSnoc(setup: Setup, init: seq<Round>, r: Round)
    requires IsTranscript(setup, init) && Reacts(setup, PhaseBefore(init, |init|), r)
    ensures IsTranscript(setup, init + [r])
  {
    var all := init + [r];
    forall i | 0 <= i < |all| ensures Reacts(setup, PhaseBefore(all, i), all[i]) {
      SnocPhase(init, r, i);
    }
  }

  // Whatever is sent, with whatever users and outside world at each time, there is a transcript of it.
  lemma TranscriptExists(setup: Setup, sent: seq<(LapasProtocol, seq<Users.UserIndexEntry>, World)>)
      returns (rounds: seq<Round>)
    ensures IsTranscript(setup, rounds) && |rounds| == |sent|
    ensures forall i :: 0 <= i < |sent| ==> (rounds[i].packet, rounds[i].users, rounds[i].world) == sent[i]
  {
    rounds := [];
    while |rounds| < |sent|
      invariant IsTranscript(setup, rounds) && |rounds| <= |sent|
      invariant forall i :: 0 <= i < |rounds| ==> (rounds[i].packet, rounds[i].users, rounds[i].world) == sent[i]
    {
      var (p, users, w) := sent[|rounds|];
      var r := Round(p, users, w, React(PhaseBefore(rounds, |rounds|), setup, users, w, p));
      TranscriptSnoc(setup, rounds, r);
      rounds := rounds + [r];
    }
  }

  // Place k of the requests and of the replies behind the handshake response belong to round i.
  ghost predicate HandledIn(setup: Setup, rounds: seq<Round>, k: nat, i: nat) {
    0 < i < |rounds| && k < |Requests(setup, rounds)| && rounds[i].packet == Requests(setup, rounds)[k] &&
    PhaseBefore(rounds, i) == Serving &&
    |Replies(rounds)| > k + 1 && rounds[i].reaction.replies == [Replies(rounds)[k + 1]]
  }

  lemma RepliesSnoc(init: seq<Round>, last: Round)
    ensures Replies(init + [last]) == Replies(init) + last.reaction.replies
  {
    Front(init, last);
  }

  lemma RequestsSnoc(setup: Setup, init: seq<Round>, last: Round)
    requires init != []
    ensures var before := Requests(setup, init);
            Requests(setup, init + [last]) ==
            if !IsRequest(last.packet) || AnyRefused(setup, before) then before else before + [last.packet]
  {
    Front(init, last);
  }

  lemma StillHandledIn(setup: Setup, init: seq<Round>, last: Round, k: nat, i: nat)
    requires HandledIn(setup, init, k, i)
    ensures HandledIn(setup, init + [last], k, i)
  {
    RepliesSnoc(init, last);
    RequestsSnoc(setup, init, last);
    assert (init + [last])[i] == init[i] && (init + [last])[i - 1] == init[i - 1];
  }

  lemma HandledLast(setup: Setup, init: seq<Round>, last: Round, phase: Phase)
    requires init != [] && phase == PhaseBefore(init, |init|) && LoopRound(setup, last.packet, phase, last.reaction)
    requires Served(setup, Requests(setup, init), Replies(init), phase)
    requires IsRequest(last.packet) && !AnyRefused(setup, Requests(setup, init))
    ensures HandledIn(setup, init + [last], |Requests(setup, init)|, |init|)
  {
    RepliesSnoc(init, last);
    RequestsSnoc(setup, init, last);
    Front(init, last);
    assert last.reaction.replies == [last.reaction.replies[0]];
    assert |Replies(init)| == |Requests(setup, init)| + 1;
  }

  // Every request was handled in some round.
  lemma {:induction false} RoundOf(setup: Setup, rounds: seq<Round>, k: nat) returns (i: nat)
    requires IsTranscript(setup, rounds) && ShookHands(rounds) && k < |Requests(setup, rounds)|
    ensures HandledIn(setup, rounds, k, i)
  {
    var init, last := rounds[..|rounds| - 1], rounds[|rounds| - 1];
    InitTranscript(setup, rounds);
    Snoc(rounds);
    RequestsSnoc(setup, init, last);
    if k < |Requests(setup, init)| {
      i := RoundOf(setup, init, k);
      StillHandledIn(setup, init, last, k, i);
    } else {
      TranscriptOrder(setup, init);
      RoundFacts(setup, last.users, last.world, last.packet, PhaseBefore(init, |init|));
      HandledLast(setup, init, last, PhaseBefore(init, |init|));
      i := |init|;
    }
  }

  // The lists are those of the users at that round, and nothing is granted to a wrong password.
  lemma ReplyContents(setup: Setup, rounds: seq<Round>, k: nat) returns (i: nat)
    requires IsTranscript(setup, rounds) && ShookHands(rounds) && k < |Requests(setup, rounds)|
    ensures 0 < i < |rounds| && rounds[i].packet == Requests(setup, rounds)[k] && |Replies(rounds)| > k + 1
    ensures var q, a, us := Requests(setup, rounds)[k], Replies(rounds)[k + 1], rounds[i].users;
            match q
            case PasswdGetList =>
              a.PasswdGetListResponse? && a.passwds.Ok? && |a.passwds.value| == |us| &&
              forall n :: 0 <= n < |us| ==> a.passwds.value[n] == LapasUserPasswd(us[n].id, us[n].name)
            case ShadowGetList(auth) =>
              if !setup.check(auth) then a == ShadowGetListResponse(Err(setup.badPassword))
              else
                a.ShadowGetListResponse? && a.shadows.Ok? && |a.shadows.value| == |us| &&
                forall n :: 0 <= n < |us| ==>
                  a.shadows.value[n] == LapasUserShadow(us[n].id, us[n].name, us[n].passwordHash, us[n].lastUpdate)
            case ControlCheckAuth(auth) =>
              a == ControlCheckAuthResponse(if setup.check(auth) then Ok(Unit) else Err(setup.badPassword))
            case UserRegister(auth, _, _) => !setup.check(auth) ==> a == UserRegisterResponse(Err(setup.badPassword))
            case UserDnsMapping(auth, _) => !setup.check(auth) ==> a == UserDnsMappingResponse(Err(setup.badPassword))
            case _ => false
  {
    i := RoundOf(setup, rounds, k);
    var q, us, w := rounds[i].packet, rounds[i].users, rounds[i].world;
    RequestIsRequest(setup, rounds, k);
    RequestsByName(q);
    if AsksWithPassword(q) && !setup.check(q.auth) {
      WrongPasswordAnswer(setup, us, w, q);
    } else {
      match q
      case PasswdGetList => ListAnswers(setup, us, w, Password([]));
      case ShadowGetList(auth) => ListAnswers(setup, us, w, auth);
      case ControlCheckAuth(auth) => OtherAnswers(setup, us, w, auth, []);
      case _ =>
    }
  }

  lemma {:induction false} RequestIsRequest(setup: Setup, rounds: seq<Round>, k: nat)
    requires k < |Requests(setup, rounds)|
    ensures IsRequest(Requests(setup, rounds)[k])
  {
    var init := rounds[..|rounds| - 1];
    if k < |Requests(setup, init)| { RequestIsRequest(setup, init, k); }
  }

  // In particular: a grant to one of the four packets that carry a password means that the password is right.
  lemma GrantedMeansAccepted(setup: Setup, rounds: seq<Round>, k: nat)
    requires IsTranscript(setup, rounds) && ShookHands(rounds) && k < |Requests(setup, rounds)|
    ensures |Replies(rounds)| > k + 1
    ensures var q, a := Requests(setup, rounds)[k], Replies(rounds)[k + 1];
            AsksWithPassword(q) && Grants(a) ==> setup.check(q.auth)
  {
    var i := ReplyContents(setup, rounds, k);
  }

  // ---------------------------------------------------------------- a client with the right version and password

  // The server has no reason to end the connection.
  ghost predicate Welcomed(setup: Setup, st: System) {
    && st.version == VERSION && st.server != Closed && !st.client.Failed?
    && (forall q :: q in st.todo && AsksWithPassword(q) ==> setup.check(q.auth))
    && (st.client.Waiting? && AsksWithPassword(st.client.request) ==> setup.check(st.client.request.auth))
  }

  lemma WelcomedServe(setup: Setup, st: System, users: seq<Users.UserIndexEntry>, w: World, st': System)
    requires Inv(st) && Welcomed(setup, st) && Next(setup, st, Serve(users, w), st')
    ensures Welcomed(setup, st')
  {
    var p := st.c2s[0];
    if st.client.Waiting? {
      RequestsByName(p);
      RoundFacts(setup, users, w, p, Serving);
    }
  }

  lemma WelcomedStep(setup: Setup, st: System, step: Step, st': System)
    requires Inv(st) && Welcomed(setup, st) && Next(setup, st, step, st')
    ensures Welcomed(setup, st')
  {
    match step
    case Serve(users, w) => WelcomedServe(setup, st, users, w, st');
    case Ask => assert st.todo[0] in st.todo && forall q :: q in st.todo[1..] ==> q in st.todo;
    case _ =>
  }

  lemma {:induction false} WelcomedRun(setup: Setup, run: seq<System>, steps: seq<Step>, i: nat)
    requires IsRun(setup, run, steps) && i < |run| && Welcomed(setup, run[0])
    ensures Welcomed(setup, run[i])
  {
    if i > 0 {
      WelcomedRun(setup, run, steps, i - 1);
      RunInv(setup, run, steps, i - 1);
      WelcomedStep(setup, run[i - 1], steps[i - 1], run[i]);
    }
  }

  // Steps still to go: three for the handshake and three for each request.
  function Work(st: System): nat {
    3 * |st.todo| +
    match st.client
    case Connecting => 3
    case AwaitHandshake => if st.c2s != [] then 2 else 1
    case Waiting(_) => if st.c2s != [] then 2 else 1
    case Ready => 0
    case Failed(_) => -3 * |st.todo|
  }

  predicate AtEnd(st: System) {
    st.client.Failed? || (st.client == Ready && st.todo == [])
  }

  // Until the client is at its end, one side has a step to take.
  lemma Advance(setup: Setup, st: System, users: seq<Users.UserIndexEntry>, w: World) returns (step: Step, st': System)
    requires Inv(st) && !AtEnd(st)
    ensures Next(setup, st, step, st') && Work(st') < Work(st) && !step.Forward?
    ensures Welcomed(setup, st) ==> !step.Lose?
  {
    match st.client
    case Connecting =>
      step, st' := Hello, st.(client := AwaitHandshake, c2s := st.c2s + [ControlHandshake(st.version)]);
    case Ready =>
      step := Ask;
      st' := st.(client := Waiting(st.todo[0]), todo := st.todo[1..], c2s := st.c2s + [st.todo[0]]);
    case AwaitHandshake =>
      if st.c2s != [] {
        step, st' := ServeNext(setup, st, users, w);
      } else {
        step := Welcome;
        st' := st.(s2c := st.s2c[1..],
                   client := if st.s2c[0].result.Ok? then Ready else Failed(Incompatible));
      }
    case Waiting(q) =>
      if st.c2s != [] {
        step, st' := ServeNext(setup, st, users, w);
      } else if st.s2c != [] {
        step, st' := Hear, st.(s2c := st.s2c[1..], client := Ready, log := st.log + [(q, st.s2c[0])]);
      } else {
        step, st' := Lose, st.(client := Failed(ConnectionLost));
      }
  }

  lemma ServeNext(setup: Setup, st: System, users: seq<Users.UserIndexEntry>, w: World)
      returns (step: Step, st': System)
    requires |st.c2s| == 1
    ensures step == Serve(users, w) && Next(setup, st, step, st')
    ensures st'.c2s == [] && st'.todo == st.todo && st'.client == st.client
  {
    var r := React(st.server, setup, users, w, st.c2s[0]);
    step := Serve(users, w);
    st' := st.(c2s := st.c2s[1..], s2c := st.s2c + r.replies, server := r.phase,
               listening := st.listening || (st.server == Serving && st.c2s[0].ControlListenEvents?));
  }

  // Some steps bring every client to its end: it is done, or has met an incompatible version or a connection that
  // was ended for a wrong password.
  lemma EveryClientEnds(setup: Setup, run: seq<System>, steps: seq<Step>, users: seq<Users.UserIndexEntry>, w: World)
      returns (run': seq<System>, steps': seq<Step>)
    requires IsRun(setup, run, steps)
    ensures IsRun(setup, run', steps') && run <= run' && steps <= steps' && AtEnd(run'[|run'| - 1])
    ensures forall k :: |steps| <= k < |steps'| ==> !steps'[k].Forward?
    ensures Welcomed(setup, run[|run| - 1]) ==> Welcomed(setup, run'[|run'| - 1])
  {
    run', steps' := run, steps;
    RunInv(setup, run, steps, |run| - 1);
    while !AtEnd(run'[|run'| - 1])
      invariant IsRun(setup, run', steps') && run <= run' && steps <= steps' && Inv(run'[|run'| - 1])
      invariant Welcomed(setup, run[|run| - 1]) ==> Welcomed(setup, run'[|run'| - 1])
      invariant forall k :: |steps| <= k < |steps'| ==> !steps'[k].Forward?
      decreases Work(run'[|run'| - 1])
    {
      var st := run'[|run'| - 1];
      var step, next := Advance(setup, st, users, w);
      InvStep(setup, st, step, next);
      if Welcomed(setup, st) { WelcomedStep(setup, st, step, next); }
      run', steps' := run' + [next], steps' + [step];
    }
  }

  // From every reachable state of a client with the right version and passwords that the server accepts, whatever
  // the users and the outside world are at the time, some steps bring it to the end of its list of requests, with
  // a response to each.
  lemma AllAnswered(setup: Setup, run: seq<System>, steps: seq<Step>, users: seq<Users.UserIndexEntry>, w: World)
      returns (run': seq<System>, steps': seq<Step>)
    requires IsRun(setup, run, steps) && run[0].version == VERSION
    requires forall q :: q in run[0].todo && AsksWithPassword(q) ==> setup.check(q.auth)
    ensures IsRun(setup, run', steps') && run <= run' && steps <= steps'
    ensures forall k :: |steps| <= k < |steps'| ==> !steps'[k].Forward?
    ensures var st := run'[|run'| - 1];
            st.client == Ready && st.todo == [] && |st.log| == |run[0].todo| &&
            forall k :: 0 <= k < |st.log| ==> st.log[k].0 == run[0].todo[k] && Answers(run[0].todo[k], st.log[k].1)
  {
    WelcomedRun(setup, run, steps, |run| - 1);
    run', steps' := EveryClientEnds(setup, run, steps, users, w);
    ClientIsAnsweredInOrder(setup, run', steps', |run'| - 1);
  }
}
