// The conversation on one connection: what the server's handler does with any packets it is sent, and what a
// command-line client and the server do with each other.
module Conversation {
  import opened Wrappers
  import opened Protocol
  import opened Server
  import Users

  // A response belongs to a request when its tag is the next one.
  predicate Answers(request: LapasProtocol, response: LapasProtocol) {
    Tag(response) == Tag(request) + 1
  }

  // ---------------------------------------------------------------- the handler alone, sent anything

  // One packet handled, with the users and the outside world as they are at that time; other connections may
  // change the users in between.
  datatype Round = Round(packet: LapasProtocol, users: seq<Users.UserIndexEntry>, world: World, reaction: Reaction)

  ghost predicate IsTranscript(setup: Setup, rounds: seq<Round>) {
    forall i :: 0 <= i < |rounds| ==> Reacts(setup, PhaseBefore(rounds, i), rounds[i])
  }

  ghost predicate Reacts(setup: Setup, before: Phase, r: Round) {
    r.reaction == React(before, setup, r.users, r.world, r.packet)
  }

  function PhaseBefore(rounds: seq<Round>, i: nat): Phase
    requires i <= |rounds|
  {
    if i == 0 then Shaking else rounds[i - 1].reaction.phase
  }

  function Replies(rounds: seq<Round>): seq<LapasProtocol> {
    if rounds == [] then [] else Replies(rounds[..|rounds| - 1]) + rounds[|rounds| - 1].reaction.replies
  }

  // The requests among the packets after the handshake, up to and including the first with a wrong password.
  ghost function Requests(setup: Setup, rounds: seq<Round>): seq<LapasProtocol> {
    if |rounds| <= 1 then []
    else
      var before, p := Requests(setup, rounds[..|rounds| - 1]), rounds[|rounds| - 1].packet;
      if !IsRequest(p) || AnyRefused(setup, before) then before else before + [p]
  }

  predicate ShookHands(rounds: seq<Round>) {
    rounds != [] && rounds[0].packet == ControlHandshake(VERSION)
  }

  // Each reply answers the request in its place, and replies and requests are equally many.
  ghost predicate Paired(requests: seq<LapasProtocol>, replies: seq<LapasProtocol>) {
    |requests| == |replies| && forall k :: 0 <= k < |requests| ==> Answers(requests[k], replies[k])
  }

  // What one round in the request loop does, seen from outside.
  ghost predicate LoopRound(setup: Setup, p: LapasProtocol, before: Phase, reaction: Reaction) {
    match before
    case Shaking => true
    case Closed => reaction == Reaction(Closed, [])
    case Serving =>
      if IsRequest(p) then
        |reaction.replies| == 1 && Answers(p, reaction.replies[0]) &&
        reaction.phase == if Refused(setup, p) then Closed else Serving
      else reaction == Reaction(Serving, [])
  }

  lemma RoundFacts(setup: Setup, users: seq<Users.UserIndexEntry>, w: World, p: LapasProtocol, before: Phase)
    ensures LoopRound(setup, p, before, React(before, setup, users, w, p))
  {
    if before == Serving && IsRequest(p) { ResponseAnswers(setup, users, w, p); }
  }

  ghost predicate AnyRefused(setup: Setup, requests: seq<LapasProtocol>) {
    exists q :: q in requests && Refused(setup, q)
  }

  // Served: the handshake response and then one matching response to each request.
  ghost predicate Served(setup: Setup, requests: seq<LapasProtocol>, replies: seq<LapasProtocol>, phase: Phase) {
    replies != [] && replies[0] == ControlHandshakeResponse(Ok(Unit)) && Paired(requests, replies[1..]) &&
    phase == if AnyRefused(setup, requests) then Closed else Serving
  }

  lemma ServedStep(setup: Setup, requests: seq<LapasProtocol>, replies: seq<LapasProtocol>, phase: Phase,
                   p: LapasProtocol, r: Reaction)
    requires Served(setup, requests, replies, phase) && LoopRound(setup, p, phase, r)
    ensures Served(setup, if !IsRequest(p) || AnyRefused(setup, requests) then requests else requests + [p],
                   replies + r.replies, r.phase)
  {
    assert (replies + r.replies)[1..] == replies[1..] + r.replies;
    assert AnyRefused(setup, requests + [p]) <==> AnyRefused(setup, requests) || Refused(setup, p) by {
      assert (requests + [p])[|requests|] == p;
      assert forall q :: q in requests ==> q in requests + [p];
    }
    assert r.replies == [] ==> replies + r.replies == replies;
  }

  // Before a handshake with the right version nothing is served, whatever is sent. After it the replies are the
  // handshake response and then one response to each request, in order and of the matching type, up to the first
  // wrong password, which ends the connection.
  lemma {:induction false} TranscriptOrder(setup: Setup, rounds: seq<Round>)
    requires IsTranscript(setup, rounds) && rounds != []
    ensures ShookHands(rounds) ==>
            Served(setup, Requests(setup, rounds), Replies(rounds), PhaseBefore(rounds, |rounds|))
    ensures !ShookHands(rounds) ==>
              PhaseBefore(rounds, |rounds|) == Closed &&
              Replies(rounds) ==
              if rounds[0].packet.ControlHandshake? then [ControlHandshakeResponse(Err(setup.badVersion))] else []
  {
    var init, last := rounds[..|rounds| - 1], rounds[|rounds| - 1];
    if |rounds| == 1 {
      FirstRound(setup, rounds);
    } else {
      InitTranscript(setup, rounds);
      TranscriptOrder(setup, init);
      RoundFacts(setup, last.users, last.world, last.packet, PhaseBefore(init, |init|));
      if ShookHands(rounds) {
        ServedStep(setup, Requests(setup, init), Replies(init), PhaseBefore(init, |init|), last.packet, last.reaction);
      }
    }
  }

  lemma InitTranscript(setup: Setup, rounds: seq<Round>)
    requires IsTranscript(setup, rounds) && |rounds| > 1
    ensures var init, last := rounds[..|rounds| - 1], rounds[|rounds| - 1];
            IsTranscript(setup, init) && ShookHands(init) == ShookHands(rounds) && init[0] == rounds[0] &&
            Reacts(setup, PhaseBefore(init, |init|), last)
  {
    var init := rounds[..|rounds| - 1];
    forall i | 0 <= i < |init| ensures Reacts(setup, PhaseBefore(init, i), init[i]) {
      assert PhaseBefore(init, i) == PhaseBefore(rounds, i) && init[i] == rounds[i];
    }
  }

  lemma FirstRound(setup: Setup, rounds: seq<Round>)
    requires IsTranscript(setup, rounds) && |rounds| == 1
    ensures ShookHands(rounds) ==> Served(setup, [], Replies(rounds), PhaseBefore(rounds, 1))
    ensures !ShookHands(rounds) ==>
              PhaseBefore(rounds, 1) == Closed &&
              Replies(rounds) ==
              if rounds[0].packet.ControlHandshake? then [ControlHandshakeResponse(Err(setup.badVersion))] else []
  {
    assert PhaseBefore(rounds, 0) == Shaking;
    assert rounds[..0] == [];
    assert Replies(rounds) == [] + rounds[0].reaction.replies == rounds[0].reaction.replies;
  }

  lemma ResponseAnswers(setup: Setup, users: seq<Users.UserIndexEntry>, w: World, p: LapasProtocol)
    requires IsRequest(p)
    ensures Answers(p, Response(setup, users, w, p))
  {
  }

  // ---------------------------------------------------------------- a command-line client and the server

  datatype ClientError = Incompatible | UnexpectedResponse | ConnectionLost

  datatype Client = Connecting | AwaitHandshake | Ready | Waiting(request: LapasProtocol) | Failed(error: ClientError)

  // todo: the requests still to be performed. log: those performed, with their responses.
  datatype System = System(
    version: Version,
    client: Client,
    todo: seq<LapasProtocol>,
    log: seq<(LapasProtocol, LapasProtocol)>,
    c2s: seq<LapasProtocol>,
    s2c: seq<LapasProtocol>,
    server: Phase,
    listening: bool)

  datatype Step =
    | Hello                                                             // lapas_connect, first half
    | Serve(users: seq<Users.UserIndexEntry>, world: World)             // the handler takes one packet
    | Forward(p: LapasProtocol)                                         // a forwarder sends a notification or a ping
    | Welcome                                                           // lapas_connect, second half
    | Ask                                                               // perform_request, first half
    | Hear                                                              // perform_request, second half
    | Lose                                                              // the stream ends while the client waits

  predicate Init(st: System) {
    (forall q :: q in st.todo ==> IsRequest(q)) &&
    st == System(st.version, Connecting, st.todo, [], [], [], Shaking, false)
  }

  predicate Next(setup: Setup, st: System, step: Step, st': System) {
    match step
    case Hello =>
      st.client == Connecting &&
      st' == st.(client := AwaitHandshake, c2s := st.c2s + [ControlHandshake(st.version)])
    case Serve(users, w) =>
      st.c2s != [] &&
      var p := st.c2s[0];
      var r := React(st.server, setup, users, w, p);
      st' == st.(c2s := st.c2s[1..], s2c := st.s2c + r.replies, server := r.phase,
                 listening := st.listening || (st.server == Serving && p.ControlListenEvents?))
    case Forward(p) => st.listening && st' == st.(s2c := st.s2c + [p])
    case Welcome =>
      st.client == AwaitHandshake && st.s2c != [] &&
      var p := st.s2c[0];
      st' == st.(s2c := st.s2c[1..],
                 client := if !p.ControlHandshakeResponse? then Failed(UnexpectedResponse)
                           else if p.result.Ok? then Ready else Failed(Incompatible))
    case Ask =>
      st.client == Ready && st.todo != [] &&
      st' == st.(client := Waiting(st.todo[0]), todo := st.todo[1..], c2s := st.c2s + [st.todo[0]])
    case Hear =>
      st.client.Waiting? && st.s2c != [] &&
      var p := st.s2c[0];
      st' == if Answers(st.client.request, p)
             then st.(s2c := st.s2c[1..], client := Ready, log := st.log + [(st.client.request, p)])
             else st.(s2c := st.s2c[1..], client := Failed(UnexpectedResponse))
    case Lose =>
      (st.client == AwaitHandshake || st.client.Waiting?) && st.s2c == [] && st.server == Closed &&
      st' == st.(client := Failed(ConnectionLost))
  }

  ghost predicate IsRun(setup: Setup, run: seq<System>, steps: seq<Step>) {
    |run| == |steps| + 1 && Init(run[0]) && forall i :: 0 <= i < |steps| ==> Next(setup, run[i], steps[i], run[i + 1])
  }

  predicate Quiet(st: System) {
    st.c2s == [] && st.s2c == []
  }

  ghost predicate Inv(st: System) {
    && !st.listening
    && (forall q :: q in st.todo ==> IsRequest(q))
    && (forall i :: 0 <= i < |st.log| ==> Answers(st.log[i].0, st.log[i].1))
    && (st.log != [] ==> st.version == VERSION)
    && match st.client
       case Connecting => Quiet(st) && st.server == Shaking
       case AwaitHandshake =>
         || (st.c2s == [ControlHandshake(st.version)] && st.s2c == [] && st.server == Shaking)
         || (st.c2s == [] && |st.s2c| == 1 && st.s2c[0].ControlHandshakeResponse? &&
             if st.version == VERSION then st.s2c[0].result.Ok? && st.server == Serving
             else st.s2c[0].result.Err? && st.server == Closed)
       case Ready => Quiet(st) && st.server != Shaking && st.version == VERSION
       case Waiting(q) =>
         IsRequest(q) && st.server != Shaking && st.version == VERSION &&
         (|| (st.c2s == [q] && st.s2c == [])
          || (st.c2s == [] && |st.s2c| == 1 && Answers(q, st.s2c[0]))
          || (Quiet(st) && st.server == Closed))
       case Failed(e) =>
         e != UnexpectedResponse && (e == Incompatible ==> st.version != VERSION) &&
         (st.c2s == [] || st.server == Closed)
  }

  // The handshake response, as far as the client looks at it.
  ghost predicate Greeting(version: Version, r: Reaction) {
    |r.replies| == 1 && r.replies[0].ControlHandshakeResponse? &&
    if version == VERSION then r.replies[0].result.Ok? && r.phase == Serving
    else r.replies[0].result.Err? && r.phase == Closed
  }

  lemma Greets(setup: Setup, users: seq<Users.UserIndexEntry>, w: World, version: Version)
    ensures Greeting(version, React(Shaking, setup, users, w, ControlHandshake(version)))
  {
  }

  lemma InvReact(setup: Setup, st: System, p: LapasProtocol, r: Reaction, st': System)
    requires Inv(st) && st.c2s != [] && p == st.c2s[0] && LoopRound(setup, p, st.server, r)
    requires st.server == Shaking && p == ControlHandshake(st.version) ==> Greeting(st.version, r)
    requires st' == st.(c2s := st.c2s[1..], s2c := st.s2c + r.replies, server := r.phase)
    ensures Inv(st')
  {
    assert [] + r.replies == r.replies;
  }

  lemma InvServe(setup: Setup, st: System, users: seq<Users.UserIndexEntry>, w: World, st': System)
    requires Inv(st) && Next(setup, st, Serve(users, w), st')
    ensures Inv(st')
  {
    var p := st.c2s[0];
    RoundFacts(setup, users, w, p, st.server);
    Greets(setup, users, w, st.version);
    assert !(st.server == Serving && p.ControlListenEvents?);
    InvReact(setup, st, p, React(st.server, setup, users, w, p), st');
  }

  lemma InvStep(setup: Setup, st: System, step: Step, st': System)
    requires Inv(st) && Next(setup, st, step, st')
    ensures Inv(st')
  {
    match step
    case Serve(users, w) => InvServe(setup, st, users, w, st');
    case _ =>
  }

  function Asked(log: seq<(LapasProtocol, LapasProtocol)>): seq<LapasProtocol> {
    seq(|log|, i requires 0 <= i < |log| => log[i].0)
  }

  // All requests of the client, performed, being performed, and to come; none is lost while the client lives.
  predicate Accounted(first: seq<LapasProtocol>, st: System) {
    match st.client
    case Waiting(q) => Asked(st.log) + [q] + st.todo == first
    case Failed(_) => Asked(st.log) <= first
    case _ => Asked(st.log) + st.todo == first
  }

  lemma AccountedStep(setup: Setup, first: seq<LapasProtocol>, st: System, step: Step, st': System)
    requires Accounted(first, st) && Next(setup, st, step, st')
    ensures Accounted(first, st')
  {
    if step.Ask? { assert Asked(st.log) + [st.todo[0]] + st.todo[1..] == Asked(st.log) + st.todo; }
    if step.Hear? && st'.client == Ready { assert Asked(st'.log) == Asked(st.log) + [st.client.request]; }
    if st'.client.Failed? && st.client.Waiting? {
      assert Asked(st.log) + [st.client.request] + st.todo == Asked(st.log) + ([st.client.request] + st.todo);
    }
  }

  lemma {:induction false} RunInv(setup: Setup, run: seq<System>, steps: seq<Step>, i: nat)
    requires IsRun(setup, run, steps) && i < |run|
    ensures Inv(run[i]) && Accounted(run[0].todo, run[i]) && run[i].version == run[0].version
  {
    if i == 0 {
      assert Asked([]) + run[0].todo == run[0].todo;
    } else {
      RunInv(setup, run, steps, i - 1);
      InvStep(setup, run[i - 1], steps[i - 1], run[i]);
      AccountedStep(setup, run[0].todo, run[i - 1], steps[i - 1], run[i]);
    }
  }

  // A client that never subscribes gets the responses to its requests in order, one each and of the matching
  // type, and never meets an unexpected response; with another protocol version nothing is ever served to it.
  lemma ClientIsAnsweredInOrder(setup: Setup, run: seq<System>, steps: seq<Step>, i: nat)
    requires IsRun(setup, run, steps) && i < |run|
    ensures run[i].client != Failed(UnexpectedResponse)
    ensures forall k :: 0 <= k < |run[i].log| ==>
              k < |run[0].todo| && run[i].log[k].0 == run[0].todo[k] && Answers(run[0].todo[k], run[i].log[k].1)
    ensures run[0].version != VERSION ==> run[i].log == []
    ensures run[0].version == VERSION ==> run[i].client != Failed(Incompatible)
    ensures run[i].client == Ready && run[i].todo == [] ==> |run[i].log| == |run[0].todo|
  {
    RunInv(setup, run, steps, i);
    forall k | 0 <= k < |run[i].log| ensures k < |run[0].todo| && run[i].log[k].0 == run[0].todo[k] {
      assert Asked(run[i].log)[k] == run[i].log[k].0;
    }
  }
}
