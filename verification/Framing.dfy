// Several tasks write packets to one socket through PeerTx, whose lock is held for a whole packet. The state
// machine has one step per lock operation and per write call; a write may take any part of what is left.
module Framing {
  import opened Wrappers
  import opened Wire
  import opened Protocol

  type Encoder = LapasProtocol -> Bytes

  // The request handler and every notification forwarder of a connection are senders.
  type Sender = nat

  // Holding: which sender holds the lock, its packet, and the bytes of it not yet written.
  datatype Lock = Free | Holding(sender: Sender, packet: LapasProtocol, left: Bytes)

  // failed: the senders that got an error back; each of them ends with it. torn: a write failed with a part of its
  // packet on the wire. garbled: bytes were written after that.
  datatype State = State(
    lock: Lock,
    waiting: map<Sender, LapasProtocol>,
    wire: Bytes,
    closed: bool,
    calls: map<Sender, seq<LapasProtocol>>,
    done: seq<(Sender, LapasProtocol)>,
    failed: set<Sender>,
    torn: bool,
    garbled: bool)

  // What a sender has asked to send so far, in order.
  function Calls(st: State, s: Sender): seq<LapasProtocol> {
    if s in st.calls then st.calls[s] else []
  }

  predicate Busy(st: State, s: Sender) {
    s in st.waiting || (st.lock.Holding? && st.lock.sender == s)
  }

  datatype Step =
    | Call(s: Sender, p: LapasProtocol)   // send(packet) is called and waits for the lock
    | Acquire(s: Sender)                  // the lock is taken
    | Write(n: nat)                       // one write call of encode
    | Finish                              // encode is done, the lock is released
    | Fail                                // a write fails, send returns the error and releases the lock
    | Shutdown                            // the writing half is closed, under the lock

  predicate Init(st: State) {
    st == State(Free, map[], [], false, map[], [], {}, false, false)
  }

  predicate Next(enc: Encoder, st: State, step: Step, st': State) {
    match step
    case Call(s, p) =>
      !Busy(st, s) && s !in st.failed &&
      st' == st.(waiting := st.waiting[s := p], calls := st.calls[s := Calls(st, s) + [p]])
    case Acquire(s) =>
      st.lock.Free? && s in st.waiting &&
      st' == st.(lock := Holding(s, st.waiting[s], enc(st.waiting[s])), waiting := st.waiting - {s})
    case Write(n) =>
      st.lock.Holding? && !st.closed && n <= |st.lock.left| &&
      st' == st.(wire := st.wire + st.lock.left[..n], lock := st.lock.(left := st.lock.left[n..]),
                 garbled := st.garbled || (st.torn && n > 0))
    case Finish =>
      st.lock.Holding? && st.lock.left == [] &&
      st' == st.(lock := Free, done := st.done + [(st.lock.sender, st.lock.packet)])
    case Fail =>
      st.lock.Holding? && st.lock.left != [] &&
      st' == st.(lock := Free, failed := st.failed + {st.lock.sender},
                 torn := st.torn || st.lock.left != enc(st.lock.packet))
    case Shutdown => st.lock.Free? && st' == st.(closed := true)
  }

  ghost predicate IsRun(enc: Encoder, run: seq<State>, steps: seq<Step>) {
    |run| == |steps| + 1 && Init(run[0]) && forall i :: 0 <= i < |steps| ==> Next(enc, run[i], steps[i], run[i + 1])
  }

  function WholePackets(enc: Encoder, ps: seq<LapasProtocol>): Bytes {
    if ps == [] then [] else WholePackets(enc, ps[..|ps| - 1]) + enc(ps[|ps| - 1])
  }

  function Packets(done: seq<(Sender, LapasProtocol)>): seq<LapasProtocol> {
    if done == [] then [] else Packets(done[..|done| - 1]) + [done[|done| - 1].1]
  }

  function DoneBy(done: seq<(Sender, LapasProtocol)>, s: Sender): seq<LapasProtocol> {
    if done == [] then []
    else DoneBy(done[..|done| - 1], s) + if done[|done| - 1].0 == s then [done[|done| - 1].1] else []
  }

  // What a sender is in the middle of sending.
  function Pending(st: State, s: Sender): seq<LapasProtocol> {
    (if st.lock.Holding? && st.lock.sender == s then [st.lock.packet] else []) +
    if s in st.waiting then [st.waiting[s]] else []
  }

  // The bytes behind the finished packets: the written part of the lock holder's packet, or of one that failed.
  ghost predicate Trailing(enc: Encoder, st: State, part: Bytes) {
    if st.torn then exists s, p :: p in Calls(st, s) && part < enc(p)
    else if st.lock.Holding? then part + st.lock.left == enc(st.lock.packet)
    else part == []
  }

  ghost predicate Framed(enc: Encoder, st: State) {
    exists part :: st.wire == WholePackets(enc, Packets(st.done)) + part && Trailing(enc, st, part)
  }

  // A sender that failed is one packet short, the one it failed with.
  ghost predicate Ordered(st: State, s: Sender) {
    && !(s in st.waiting && st.lock.Holding? && st.lock.sender == s)
    && DoneBy(st.done, s) <= Calls(st, s)
    && (if s in st.failed then Pending(st, s) == [] && |Calls(st, s)| == |DoneBy(st.done, s)| + 1
        else DoneBy(st.done, s) + Pending(st, s) == Calls(st, s))
    && (forall p :: p in Pending(st, s) ==> p in Calls(st, s))
  }

  ghost predicate Inv(enc: Encoder, st: State) {
    && (!st.garbled ==> Framed(enc, st))
    && (forall s :: Ordered(st, s))
    && (st.torn && !st.garbled && st.lock.Holding? ==> st.lock.left == enc(st.lock.packet))
    && (forall p :: enc(p) != [])
  }

  lemma FramedStep(enc: Encoder, st: State, step: Step, st': State)
    requires Inv(enc, st) && Next(enc, st, step, st') && !st'.garbled
    ensures Framed(enc, st')
  {
    var part :| st.wire == WholePackets(enc, Packets(st.done)) + part && Trailing(enc, st, part);
    match step
    case Call(s, p) =>
      forall s0, p0 | p0 in Calls(st, s0) ensures p0 in Calls(st', s0) { CallsGrow(st, st', s, p, s0, p0); }
      MoreCalls(enc, st, st', part);
    case Acquire(s) =>
      Behind(0, [], st'.lock.left);
      if st.torn { MoreCalls(enc, st, st', part); }
    case Write(n) => FramedWrite(enc, st, n, st', part);
    case Finish => FramedFinish(enc, st, st', part);
    case Fail => FramedFail(enc, st, st', part);
    case Shutdown => MoreCalls(enc, st, st', part);
  }

  lemma FramedWrite(enc: Encoder, st: State, n: nat, st': State, part: Bytes)
    requires Inv(enc, st) && Next(enc, st, Write(n), st') && !st'.garbled
    requires st.wire == WholePackets(enc, Packets(st.done)) + part && Trailing(enc, st, part)
    ensures Framed(enc, st')
  {
    var now := st.lock.left[..n];
    if st.torn {
      NothingLeft(st.wire);
      MoreCalls(enc, st, st', part);
    } else {
      Assoc(WholePackets(enc, Packets(st.done)), part, now);
      Assoc(part, now, st.lock.left[n..]);
      assert st.lock.left == now + st'.lock.left;
      assert Trailing(enc, st', part + now);
    }
  }

  lemma FramedFail(enc: Encoder, st: State, st': State, part: Bytes)
    requires Inv(enc, st) && Next(enc, st, Fail, st')
    requires st.wire == WholePackets(enc, Packets(st.done)) + part && Trailing(enc, st, part)
    ensures Framed(enc, st')
  {
    if st.torn {
      MoreCalls(enc, st, st', part);
    } else {
      var s, p := st.lock.sender, st.lock.packet;
      assert Ordered(st, s) && p in Pending(st, s);
      ProperPart(part, st.lock.left);
      assert p in Calls(st', s) && part < enc(p);
      NothingBefore(part, st.lock.left, enc(p));
    }
    assert Trailing(enc, st', part);
  }

  lemma NothingBefore<T>(a: seq<T>, b: seq<T>, all: seq<T>)
    requires a + b == all
    ensures b == all ==> a == []
  {
    assert |a| + |b| == |all|;
  }

  lemma MoreCalls(enc: Encoder, st: State, st': State, part: Bytes)
    requires Trailing(enc, st, part) && st'.torn == st.torn && (st.torn || st'.lock == st.lock)
    requires forall s, p :: p in Calls(st, s) ==> p in Calls(st', s)
    ensures Trailing(enc, st', part)
  {
    if st.torn {
      var s, p :| p in Calls(st, s) && part < enc(p);
      assert p in Calls(st', s);
    }
  }

  lemma FramedFinish(enc: Encoder, st: State, st': State, part: Bytes)
    requires Inv(enc, st) && Next(enc, st, Finish, st') && !st.garbled
    requires st.wire == WholePackets(enc, Packets(st.done)) + part && Trailing(enc, st, part)
    ensures Framed(enc, st')
  {
    assert !st.torn;
    NothingLeft(part);
    Front(st.done, (st.lock.sender, st.lock.packet));
    Front(Packets(st.done), st.lock.packet);
    NothingLeft(st'.wire);
    assert Trailing(enc, st', []);
  }

  lemma NothingLeft<T>(a: seq<T>)
    ensures a + [] == a
  {
  }

  lemma ProperPart<T>(a: seq<T>, b: seq<T>)
    requires b != []
    ensures a < a + b
  {
  }

  lemma CallsGrow(st: State, st': State, s: Sender, p: LapasProtocol, s0: Sender, p0: LapasProtocol)
    requires st'.calls == st.calls[s := Calls(st, s) + [p]] && p0 in Calls(st, s0)
    ensures p0 in Calls(st', s0)
  {
  }

  lemma OrderedCall(enc: Encoder, st: State, caller: Sender, p: LapasProtocol, st': State, s: Sender)
    requires Ordered(st, s) && Next(enc, st, Call(caller, p), st')
    ensures Ordered(st', s)
  {
    if s == caller {
      NothingLeft(DoneBy(st.done, s));
      assert Pending(st, s) == [] && Pending(st', s) == [p] && Calls(st', s) == Calls(st, s) + [p];
    } else {
      assert Pending(st', s) == Pending(st, s) && Calls(st', s) == Calls(st, s);
    }
  }

  lemma OrderedFinish(enc: Encoder, st: State, st': State, s: Sender)
    requires Ordered(st, s) && Next(enc, st, Finish, st')
    ensures Ordered(st', s)
  {
    Front(st.done, (st.lock.sender, st.lock.packet));
    if s == st.lock.sender {
      assert Pending(st, s) == [st.lock.packet] && Pending(st', s) == [];
      assert DoneBy(st'.done, s) == DoneBy(st.done, s) + [st.lock.packet];
      NothingLeft(DoneBy(st'.done, s));
    } else {
      NothingLeft(DoneBy(st.done, s));
      assert Pending(st', s) == Pending(st, s) && DoneBy(st'.done, s) == DoneBy(st.done, s);
    }
  }

  lemma OrderedFail(enc: Encoder, st: State, st': State, s: Sender)
    requires Ordered(st, s) && Next(enc, st, Fail, st')
    ensures Ordered(st', s)
  {
    if s == st.lock.sender {
      assert Pending(st, s) == [st.lock.packet] && Pending(st', s) == [];
    } else {
      assert Pending(st', s) == Pending(st, s);
    }
  }

  lemma OrderedStep(enc: Encoder, st: State, step: Step, st': State, s: Sender)
    requires Inv(enc, st) && Next(enc, st, step, st')
    ensures Ordered(st', s)
  {
    assert Ordered(st, s);
    match step
    case Call(caller, p) => OrderedCall(enc, st, caller, p, st', s);
    case Finish => OrderedFinish(enc, st, st', s);
    case Fail => OrderedFail(enc, st, st', s);
    case _ => assert Pending(st', s) == Pending(st, s);
  }

  lemma InvStep(enc: Encoder, st: State, step: Step, st': State)
    requires Inv(enc, st) && Next(enc, st, step, st')
    ensures Inv(enc, st')
  {
    if !st'.garbled { FramedStep(enc, st, step, st'); }
    forall s ensures Ordered(st', s) { OrderedStep(enc, st, step, st', s); }
  }

  lemma {:induction false} RunInv(enc: Encoder, run: seq<State>, steps: seq<Step>, i: nat)
    requires IsRun(enc, run, steps) && i < |run| && forall p :: enc(p) != []
    ensures Inv(enc, run[i])
  {
    if i == 0 {
      Behind(0, [], run[0].wire);
      assert Trailing(enc, run[0], run[0].wire);
    } else {
      RunInv(enc, run, steps, i - 1);
      InvStep(enc, run[i - 1], steps[i - 1], run[i]);
    }
  }

  // ---------------------------------------------------------------- what the peer sees

  // The packets completely on the wire: the finished ones, and the lock holder's when all of it has been written.
  function OnWire(st: State): seq<LapasProtocol> {
    Packets(st.done) + if st.lock.Holding? && st.lock.left == [] then [st.lock.packet] else []
  }

  ghost predicate AllCallsFit(st: State) {
    forall s, p :: p in Calls(st, s) ==> PacketFits(p)
  }

  lemma {:induction false} DoneWasCalled(done: seq<(Sender, LapasProtocol)>, p: LapasProtocol) returns (s: Sender)
    requires p in Packets(done)
    ensures p in DoneBy(done, s)
  {
    var last := done[|done| - 1];
    if p == last.1 {
      s := last.0;
    } else {
      s := DoneWasCalled(done[..|done| - 1], p);
    }
  }

  lemma OnWireWasCalled(enc: Encoder, st: State)
    requires Inv(enc, st) && AllCallsFit(st)
    ensures forall p :: p in OnWire(st) ==> PacketFits(p)
    ensures st.lock.Holding? ==> PacketFits(st.lock.packet)
  {
    forall p | p in Packets(st.done) ensures PacketFits(p) {
      var s := DoneWasCalled(st.done, p);
      assert Ordered(st, s);
      assert p in Calls(st, s);
    }
    if st.lock.Holding? {
      assert Ordered(st, st.lock.sender) && st.lock.packet in Pending(st, st.lock.sender);
    }
  }

  // The wire holds whole packets and then at most a part of one.
  lemma WireParts(enc: Encoder, st: State) returns (part: Bytes)
    requires Inv(enc, st) && AllCallsFit(st) && !st.garbled
    ensures st.wire == WholePackets(enc, OnWire(st)) + part
    ensures part == [] || exists p :: PacketFits(p) && part < enc(p)
  {
    part :| st.wire == WholePackets(enc, Packets(st.done)) + part && Trailing(enc, st, part);
    OnWireWasCalled(enc, st);
    NothingLeft(Packets(st.done));
    if st.torn {
      var s, p :| p in Calls(st, s) && part < enc(p);
      assert PacketFits(p);
    } else if st.lock.Holding? && st.lock.left == [] {
      NothingLeft(part);
      Front(Packets(st.done), st.lock.packet);
      part := [];
      NothingLeft(st.wire);
    } else if st.lock.Holding? {
      ProperPart(part, st.lock.left);
    }
  }

  lemma {:induction false} WholeIsEncodeAll(clock: Clock, ps: seq<LapasProtocol>)
    ensures WholePackets(p => Encode(clock, p), ps) == EncodeAll(clock, ps)
  {
    if ps != [] { WholeIsEncodeAll(clock, ps[..|ps| - 1]); }
  }

  lemma PartIsShort(clock: Clock, part: Bytes)
    requires Lawful(clock) && (part == [] || exists p :: PacketFits(p) && part < Encode(clock, p))
    ensures Decode(clock, part) == Short
  {
    if part != [] {
      var p :| PacketFits(p) && part < Encode(clock, p);
      PrefixIsShort(clock, p, part);
    }
  }

  // In every state of every run, however the senders take turns and wherever a write stops or fails, the peer
  // decodes exactly the packets that are completely on the wire and then waits for more, unless bytes were written
  // after a packet had been torn.
  lemma PeerSeesWholePackets(clock: Clock, run: seq<State>, steps: seq<Step>, i: nat)
    requires Lawful(clock) && IsRun(p => Encode(clock, p), run, steps) && i < |run| && AllCallsFit(run[i])
    requires !run[i].garbled
    ensures var got := DecodeAll(clock, run[i].wire); got.packets == OnWire(run[i]) && !got.failed
  {
    var enc: Encoder := p => Encode(clock, p);
    RunInv(enc, run, steps, i);
    var part := WireParts(enc, run[i]);
    OnWireWasCalled(enc, run[i]);
    WholeIsEncodeAll(clock, OnWire(run[i]));
    PartIsShort(clock, part);
    StreamReceived(clock, OnWire(run[i]), part);
  }

  // Each sender's finished packets are those it asked to send, in its own order and without gaps; when it is idle
  // none is missing, or just the one it failed with.
  lemma SendersKeepTheirOrder(clock: Clock, run: seq<State>, steps: seq<Step>, i: nat, s: Sender)
    requires IsRun(p => Encode(clock, p), run, steps) && i < |run|
    ensures DoneBy(run[i].done, s) <= Calls(run[i], s)
    ensures !Busy(run[i], s) ==>
              |Calls(run[i], s)| == |DoneBy(run[i].done, s)| + if s in run[i].failed then 1 else 0
  {
    RunInv(p => Encode(clock, p), run, steps, i);
    assert Ordered(run[i], s);
  }

  // ---------------------------------------------------------------- what a torn packet would do

  // One packet torn behind its first n bytes, and another sender's packet written all the same.
  lemma TornRun(enc: Encoder, p: LapasProtocol, q: LapasProtocol, n: nat) returns (run: seq<State>, steps: seq<Step>)
    requires 0 < n < |enc(p)| && enc(q) != []
    ensures IsRun(enc, run, steps)
    ensures var st := run[|run| - 1];
            st.garbled && st.calls == map[0 := [p], 1 := [q]] && st.wire == enc(p)[..n] + enc(q)
  {
    var s0 := State(Free, map[], [], false, map[], [], {}, false, false);
    var s1 := s0.(waiting := map[0 := p], calls := map[0 := [p]]);
    var s2 := s1.(waiting := map[], lock := Holding(0, p, enc(p)));
    var s3 := s2.(wire := enc(p)[..n], lock := Holding(0, p, enc(p)[n..]));
    var s4 := s3.(lock := Free, failed := {0}, torn := true);
    var s5 := s4.(waiting := map[1 := q], calls := map[0 := [p], 1 := [q]]);
    var s6 := s5.(waiting := map[], lock := Holding(1, q, enc(q)));
    var s7 := s6.(wire := enc(p)[..n] + enc(q), lock := Holding(1, q, []), garbled := true);
    run, steps := [s0, s1, s2, s3, s4, s5, s6, s7],
                  [Call(0, p), Acquire(0), Write(n), Fail, Call(1, q), Acquire(1), Write(|enc(q)|)];
    assert [] + [p] == [p] && [] + [q] == [q] && [] + enc(p)[..n] == enc(p)[..n];
    assert s1.waiting - {0} == map[] && s5.waiting - {1} == map[];
    assert enc(q)[..|enc(q)|] == enc(q) && enc(q)[|enc(q)|..] == [];
    assert |enc(p)[n..]| < |enc(p)|;
    assert forall i :: 0 <= i < |steps| ==> Next(enc, run[i], steps[i], run[i + 1]);
  }

  // A packet with one result field.
  lemma OneField(clock: Clock, p: LapasProtocol)
    requires p.UserRegisterResponse?
    ensures HasType(UnitResultVal(p.result), UNIT_RESULT)
    ensures EncodeBody(clock, p) == Enc(clock, UNIT_RESULT, UnitResultVal(p.result)) != []
  {
    FieldsTyped(p);
    UnitResultTyped(p.result);
    var vs, ts := Fields(p), PROTOCOL[Tag(p)];
    assert vs == [UnitResultVal(p.result)] && ts == [UNIT_RESULT] && vs[..0] == [] && ts[..0] == [];
    assert EncFields(clock, ts, vs) == EncFields(clock, [], []) + Enc(clock, UNIT_RESULT, vs[0]);
  }

  lemma Leading(n: nat)
    requires n < 256
    ensures BigEndian(n, 4) == [0] + BigEndian(n, 3)
  {
    assert BigEndian(n, 1) == [n] && BigEndian(0, 1) == [0] && BigEndian(0, 2) == [0, 0];
    assert BigEndian(n, 2) == BigEndian(0, 1) + [n];
    assert BigEndian(n, 3) == BigEndian(0, 2) + [n];
    assert BigEndian(0, 3) == BigEndian(0, 2) + [0];
    assert BigEndian(n, 4) == BigEndian(0, 3) + [n];
  }

  lemma GrantBytes(clock: Clock)
    ensures EncodeBody(clock, UserRegisterResponse(Ok(Unit))) == [0] && EncodeBody(clock, ControlPing) == []
    ensures Encode(clock, ControlPing) == [0] + BigEndian(2, 3)
  {
    OneField(clock, UserRegisterResponse(Ok(Unit)));
    Leading(2);
    NothingLeft(BigEndian(2, 4));
  }

  // The first part of one sequence, and another behind it.
  lemma CutAndGoOn(a: Bytes, b: Bytes, c: Bytes)
    ensures (a + b)[..|a|] + ([0] + c) == (a + [0]) + c
  {
    Uncut(a, b);
    Assoc(a, [0], c);
  }

  lemma TornBytes(clock: Clock, e: Text, tag: nat)
    requires tag == Tag(UserRegisterResponse(Err(e)))
    ensures var refusal, ping := Encode(clock, UserRegisterResponse(Err(e))), Encode(clock, ControlPing);
            |refusal| > 4 && ping != [] &&
            refusal[..4] + ping == Encode(clock, UserRegisterResponse(Ok(Unit))) + BigEndian(2, 3)
  {
    OneField(clock, UserRegisterResponse(Err(e)));
    GrantBytes(clock);
    CutAndGoOn(BigEndian(tag, 4), EncodeBody(clock, UserRegisterResponse(Err(e))), BigEndian(2, 3));
  }

  lemma TornFits(st: State, e: Text)
    requires st.calls == map[0 := [UserRegisterResponse(Err(e))], 1 := [ControlPing]] && |e| < U32
    ensures AllCallsFit(st)
  {
    assert Fits(VText(e)) && Fits(VErr(VText(e)));
    assert PacketFits(UserRegisterResponse(Err(e))) && PacketFits(ControlPing);
  }

  lemma Misread(clock: Clock)
    requires Lawful(clock)
    ensures var got := DecodeAll(clock, Encode(clock, UserRegisterResponse(Ok(Unit))) + BigEndian(2, 3));
            got.packets != [] && got.packets[0] == UserRegisterResponse(Ok(Unit))
  {
    var granted := UserRegisterResponse(Ok(Unit));
    assert PacketFits(granted);
    PacketRoundTrip(clock, granted, BigEndian(2, 3));
  }

  // A refusal is torn behind its tag, and a ping follows: the peer reads that the registration succeeded.
  lemma TornIsMisread(clock: Clock, e: Text) returns (run: seq<State>, steps: seq<Step>)
    requires Lawful(clock)
    ensures IsRun(p => Encode(clock, p), run, steps) && run[|run| - 1].garbled
    ensures var st := run[|run| - 1];
            st.calls == map[0 := [UserRegisterResponse(Err(e))], 1 := [ControlPing]] &&
            (|e| < U32 ==> AllCallsFit(st)) && DecodeAll(clock, st.wire).packets != [] &&
            DecodeAll(clock, st.wire).packets[0] == UserRegisterResponse(Ok(Unit))
  {
    var granted := UserRegisterResponse(Ok(Unit));
    TornBytes(clock, e, Tag(granted));
    run, steps := TornRun(p => Encode(clock, p), UserRegisterResponse(Err(e)), ControlPing, 4);
    if |e| < U32 { TornFits(run[|run| - 1], e); }
    Misread(clock);
  }
}
