// From bytes to messages: the queues that modules CacheSync and Conversation let messages travel in are what the
// framing of module Framing puts on the wire and a peer decodes from it.
module Delivery {
  import opened Wrappers
  import opened Wire
  import opened Protocol
  import opened Framing
  import CacheSync
  import Conversation
  import Daemon
  import Server

  // ---------------------------------------------------------------- one packet at a time

  // The write that puts the last bytes of the lock holder's packet on the wire.
  predicate Completes(st: State, step: Step) {
    step.Write? && st.lock.Holding? && st.lock.left != [] && step.n == |st.lock.left|
  }

  // What is on the wire grows by whole packets, each with the write that completes it.
  lemma OnWireStep(enc: Encoder, st: State, step: Step, st': State)
    requires Next(enc, st, step, st') && forall p :: enc(p) != []
    ensures OnWire(st') == OnWire(st) + if Completes(st, step) then [st.lock.packet] else []
  {
    NothingLeft(OnWire(st));
    NothingLeft(Packets(st.done));
    match step
    case Finish =>
      Front(st.done, (st.lock.sender, st.lock.packet));
      NothingLeft(Packets(st'.done));
    case Acquire(s) => assert enc(st.waiting[s]) != [];
    case _ =>
  }

  // ---------------------------------------------------------------- a daemon's connection

  // What is on its way to a daemon that has handled the given number of packets.
  function Queue(st: State, handled: nat): seq<CacheSync.Reply>
    requires handled <= |OnWire(st)|
  {
    Daemon.RepliesOf(OnWire(st)[handled..])
  }

  // What the server is about to send on a connection: the handler its snapshot, the forwarder the notification it
  // has read or, when it has none, a ping.
  predicate AboutToSend(c: CacheSync.Conn, step: CacheSync.ConnStep, p: LapasProtocol) {
    match step
    case SendSnapshot => c.handler.Replying? && p == ShadowGetListResponse(Ok(c.handler.snapshot))
    case ForwardNotice =>
      c.forwarder.Some? && c.forwarder.value.hand.Some? &&
      p == if c.forwarder.value.hand.value.UsersNotice? then NotifyUsersChanged else NotifyDnsMappingsChanged
    case ForwardPing => c.forwarder.Some? && c.forwarder.value.hand.None? && p == ControlPing
    case _ => false
  }

  // Whenever the machine can take a sending step there is such a packet, and it is what the step sends.
  lemma SomethingToSend(boot: seq<CacheSync.Request>, users: CacheSync.Users, adding: bool,
      step: CacheSync.ConnStep, c: CacheSync.Conn, c': CacheSync.Conn) returns (p: LapasProtocol)
    requires step.SendSnapshot? || step.ForwardNotice? || step.ForwardPing?
    requires CacheSync.ConnNext(boot, users, adding, step, c, c')
    ensures AboutToSend(c, step, p) && c'.s2c == c.s2c + [Daemon.ReplyOf(p)]
  {
    match step
    case SendSnapshot => p := ShadowGetListResponse(Ok(c.handler.snapshot));
    case ForwardNotice =>
      p := if c.forwarder.value.hand.value.UsersNotice? then NotifyUsersChanged else NotifyDnsMappingsChanged;
    case _ => p := ControlPing;
  }

  // The connection once it has sent.
  function Sent(c: CacheSync.Conn, step: CacheSync.ConnStep, queue: seq<CacheSync.Reply>): CacheSync.Conn {
    match step
    case SendSnapshot => c.(handler := CacheSync.Idle, s2c := queue)
    case ForwardNotice =>
      if c.forwarder.Some? then c.(forwarder := Some(c.forwarder.value.(hand := None)), s2c := queue) else c
    case _ => c.(s2c := queue)
  }

  lemma QueueSnoc(ps: seq<LapasProtocol>, p: LapasProtocol, handled: nat)
    requires handled <= |ps|
    ensures (ps + [p])[handled..] == ps[handled..] + [p]
    ensures Daemon.RepliesOf(ps[handled..] + [p]) == Daemon.RepliesOf(ps[handled..]) + [Daemon.ReplyOf(p)]
  {
  }

  // The sending steps of the machine happen with the writes that complete their packets, and no other write, lock
  // operation or failure changes the queue.
  lemma SendingIsModelled(boot: seq<CacheSync.Request>, users: CacheSync.Users, adding: bool, enc: Encoder,
      st: State, step: Step, st': State, handled: nat, c: CacheSync.Conn, sending: CacheSync.ConnStep)
    requires Next(enc, st, step, st') && (forall p :: enc(p) != []) && handled <= |OnWire(st)|
    requires c.s2c == Queue(st, handled)
    ensures handled <= |OnWire(st')|
    ensures !Completes(st, step) ==> Queue(st', handled) == c.s2c
    ensures Completes(st, step) && AboutToSend(c, sending, st.lock.packet) ==>
              CacheSync.ConnNext(boot, users, adding, sending, c, Sent(c, sending, Queue(st', handled)))
  {
    OnWireStep(enc, st, step, st');
    NothingLeft(OnWire(st));
    if Completes(st, step) { QueueSnoc(OnWire(st), st.lock.packet, handled); }
  }

  lemma QueueFront(ps: seq<LapasProtocol>, handled: nat)
    requires handled < |ps|
    ensures Daemon.RepliesOf(ps[handled..]) == [Daemon.ReplyOf(ps[handled])] + Daemon.RepliesOf(ps[handled + 1..])
  {
  }

  // What the daemon decodes next from the bytes is the front of the queue, and handling it leaves the rest; with
  // nothing in the queue it waits.
  lemma ReceivingIsModelled(clock: Clock, run: seq<State>, steps: seq<Step>, i: nat, handled: nat)
    requires Lawful(clock) && IsRun(p => Encode(clock, p), run, steps) && i < |run| && AllCallsFit(run[i])
    requires !run[i].garbled && handled <= |OnWire(run[i])|
    ensures var got, queue := DecodeAll(clock, run[i].wire), Queue(run[i], handled);
            |got.packets| == handled + |queue| && !got.failed &&
            (queue != [] ==> queue == [Daemon.ReplyOf(got.packets[handled])] + Queue(run[i], handled + 1))
  {
    PeerSeesWholePackets(clock, run, steps, i);
    if handled < |OnWire(run[i])| { QueueFront(OnWire(run[i]), handled); }
  }

  // ---------------------------------------------------------------- a client that does not subscribe

  lemma {:induction false} AllDoneBy(done: seq<(Sender, LapasProtocol)>, s: Sender)
    requires forall t :: t != s ==> DoneBy(done, t) == []
    ensures Packets(done) == DoneBy(done, s)
  {
    if done != [] {
      var init, last := done[..|done| - 1], done[|done| - 1];
      assert DoneBy(done, last.0) == DoneBy(init, last.0) + [last.1];
      forall t | t != s ensures DoneBy(init, t) == [] { assert |DoneBy(init, t)| <= |DoneBy(done, t)| == 0; }
      AllDoneBy(init, s);
    }
  }

  // With one sender only, what is on the wire is what it has asked to send, in that order.
  lemma SoleSender(enc: Encoder, st: State, s: Sender)
    requires Inv(enc, st) && forall t :: t != s ==> Calls(st, t) == []
    ensures OnWire(st) <= Calls(st, s)
    ensures !Busy(st, s) && s !in st.failed ==> OnWire(st) == Calls(st, s)
  {
    forall t | t != s ensures DoneBy(st.done, t) == [] { assert Ordered(st, t); }
    AllDoneBy(st.done, s);
    assert Ordered(st, s);
    NothingLeft(Packets(st.done));
    NothingLeft(DoneBy(st.done, s));
    if st.lock.Holding? {
      assert Ordered(st, st.lock.sender) && st.lock.packet in Pending(st, st.lock.sender);
      assert st.lock.sender == s && Pending(st, s) == [st.lock.packet];
    }
  }

  // End to end: the handler's replies to whatever it was sent, put on the wire in any pieces, are decoded by the
  // client in order; after the handshake response, the packet at place k + 1 answers request k.
  lemma ClientDecodesAnswers(clock: Clock, setup: Server.Setup, rounds: seq<Conversation.Round>,
      run: seq<State>, steps: seq<Step>, i: nat, k: nat)
    requires Lawful(clock) && IsRun(p => Encode(clock, p), run, steps) && i < |run| && AllCallsFit(run[i])
    requires !run[i].garbled && (forall t :: t != 0 ==> Calls(run[i], t) == [])
    requires Conversation.IsTranscript(setup, rounds) && Conversation.ShookHands(rounds)
    requires Calls(run[i], 0) == Conversation.Replies(rounds)
    ensures var got := DecodeAll(clock, run[i].wire);
            got.packets <= Conversation.Replies(rounds) && !got.failed &&
            (!Busy(run[i], 0) && 0 !in run[i].failed ==> got.packets == Conversation.Replies(rounds))
    ensures var got, asked := DecodeAll(clock, run[i].wire), Conversation.Requests(setup, rounds);
            (got.packets != [] ==> got.packets[0] == ControlHandshakeResponse(Ok(Unit))) &&
            (k + 1 < |got.packets| ==> k < |asked| && Conversation.Answers(asked[k], got.packets[k + 1]))
  {
    RunInv(p => Encode(clock, p), run, steps, i);
    PeerSeesWholePackets(clock, run, steps, i);
    SoleSender(p => Encode(clock, p), run[i], 0);
    Conversation.TranscriptOrder(setup, rounds);
    var replies := Conversation.Replies(rounds);
    if k + 1 < |OnWire(run[i])| { assert OnWire(run[i])[k + 1] == replies[k + 1] == replies[1..][k]; }
  }
}
