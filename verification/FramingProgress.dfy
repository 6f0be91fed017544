// That a call to send comes to its end on an open socket, whoever else is sending.
module FramingProgress {
  import opened Protocol
  import opened Framing

  lemma OneMore(enc: Encoder, run: seq<State>, steps: seq<Step>, step: Step, st': State)
      returns (run': seq<State>, steps': seq<Step>)
    requires IsRun(enc, run, steps) && Next(enc, run[|run| - 1], step, st')
    ensures run' == run + [st'] && steps' == steps + [step] && IsRun(enc, run', steps')
  {
    run', steps' := run + [st'], steps + [step];
  }

  // The steps that serve calls already made.
  predicate Serves(step: Step) {
    step.Acquire? || step.Write? || step.Finish?
  }

  ghost predicate GoesOn(enc: Encoder, run: seq<State>, steps: seq<Step>, run': seq<State>, steps': seq<Step>) {
    IsRun(enc, run, steps) && IsRun(enc, run', steps') && run <= run' && steps <= steps' &&
    forall k :: |steps| <= k < |steps'| ==> Serves(steps'[k])
  }

  lemma GoesOnFurther(enc: Encoder, run: seq<State>, steps: seq<Step>, run1: seq<State>, steps1: seq<Step>,
                      run': seq<State>, steps': seq<Step>)
    requires GoesOn(enc, run, steps, run1, steps1) && GoesOn(enc, run1, steps1, run', steps')
    ensures GoesOn(enc, run, steps, run', steps')
  {
    forall k | |steps| <= k < |steps'| ensures Serves(steps'[k]) {
      if k < |steps1| { assert steps'[k] == steps1[k]; }
    }
  }

  // The lock is free, and besides the packets written meanwhile all is as it was, with these senders waiting.
  ghost predicate Unlocked(st: State, st': State, waiting: map<Sender, LapasProtocol>) {
    st'.lock.Free? && !st'.closed && st'.waiting == waiting && st'.calls == st.calls && st'.failed == st.failed &&
    st'.torn == st.torn && (!st.torn ==> st'.garbled == st.garbled)
  }

  // The lock holder, if there is one, writes all that is left and releases the lock.
  lemma HolderFinishes(enc: Encoder, run: seq<State>, steps: seq<Step>) returns (run': seq<State>, steps': seq<Step>)
    requires IsRun(enc, run, steps) && !run[|run| - 1].closed
    ensures GoesOn(enc, run, steps, run', steps')
    ensures Unlocked(run[|run| - 1], run'[|run'| - 1], run[|run| - 1].waiting)
  {
    var st := run[|run| - 1];
    if st.lock.Free? {
      run', steps' := run, steps;
    } else {
      var left := st.lock.left;
      var st1 := st.(wire := st.wire + left, lock := st.lock.(left := []),
                     garbled := st.garbled || (st.torn && |left| > 0));
      var st2 := st1.(lock := Free, done := st.done + [(st.lock.sender, st.lock.packet)]);
      assert left[..|left|] == left && left[|left|..] == [];
      var run1, steps1 := OneMore(enc, run, steps, Write(|left|), st1);
      run', steps' := OneMore(enc, run1, steps1, Finish, st2);
    }
  }

  // A sender that waits takes the free lock and writes its packet.
  lemma WaiterIsServed(enc: Encoder, run: seq<State>, steps: seq<Step>, s: Sender)
      returns (run': seq<State>, steps': seq<Step>)
    requires IsRun(enc, run, steps) && run[|run| - 1].lock.Free? && s in run[|run| - 1].waiting
    requires !run[|run| - 1].closed
    ensures GoesOn(enc, run, steps, run', steps')
    ensures Unlocked(run[|run| - 1], run'[|run'| - 1], run[|run| - 1].waiting - {s})
  {
    var st := run[|run| - 1];
    var st1 := st.(lock := Holding(s, st.waiting[s], enc(st.waiting[s])), waiting := st.waiting - {s});
    var run1, steps1 := OneMore(enc, run, steps, Acquire(s), st1);
    run', steps' := HolderFinishes(enc, run1, steps1);
    GoesOnFurther(enc, run, steps, run1, steps1, run', steps');
  }

  lemma NobodyWaits(enc: Encoder, run: seq<State>, steps: seq<Step>, s: Sender)
      returns (run': seq<State>, steps': seq<Step>)
    requires IsRun(enc, run, steps) && !run[|run| - 1].closed
    ensures GoesOn(enc, run, steps, run', steps')
    ensures Unlocked(run[|run| - 1], run'[|run'| - 1], run[|run| - 1].waiting - {s})
  {
    run', steps' := HolderFinishes(enc, run, steps);
    if s in run[|run| - 1].waiting {
      var run2, steps2 := WaiterIsServed(enc, run', steps', s);
      GoesOnFurther(enc, run, steps, run', steps', run2, steps2);
      run', steps' := run2, steps2;
    } else {
      assert run[|run| - 1].waiting - {s} == run[|run| - 1].waiting;
    }
  }

  lemma IdleIsDone(enc: Encoder, run: seq<State>, steps: seq<Step>, s: Sender)
    requires IsRun(enc, run, steps) && (forall p :: enc(p) != [])
    requires !Busy(run[|run| - 1], s) && s !in run[|run| - 1].failed
    ensures DoneBy(run[|run| - 1].done, s) == Calls(run[|run| - 1], s)
  {
    RunInv(enc, run, steps, |run| - 1);
    assert Ordered(run[|run| - 1], s);
    NothingLeft(DoneBy(run[|run| - 1].done, s));
  }

  // From every reachable state in which the socket is open, lock operations and writes that succeed bring a
  // sender's call to its end, with everything it asked for on the wire, and tear nothing.
  lemma CallEnds(enc: Encoder, run: seq<State>, steps: seq<Step>, s: Sender)
      returns (run': seq<State>, steps': seq<Step>)
    requires IsRun(enc, run, steps) && (forall p :: enc(p) != [])
    requires !run[|run| - 1].closed && s !in run[|run| - 1].failed
    ensures GoesOn(enc, run, steps, run', steps')
    ensures var st, st' := run[|run| - 1], run'[|run'| - 1];
            !Busy(st', s) && Calls(st', s) == Calls(st, s) == DoneBy(st'.done, s) && !st'.closed &&
            st'.torn == st.torn && (!st.torn ==> st'.garbled == st.garbled)
  {
    run', steps' := NobodyWaits(enc, run, steps, s);
    IdleIsDone(enc, run', steps', s);
  }

  // The socket can be closed whenever nobody holds the lock.
  lemma ShutDown(enc: Encoder, run: seq<State>, steps: seq<Step>) returns (run': seq<State>, steps': seq<Step>)
    requires IsRun(enc, run, steps) && run[|run| - 1].lock.Free?
    ensures IsRun(enc, run', steps') && run <= run' && steps' == steps + [Shutdown]
    ensures run'[|run'| - 1] == run[|run| - 1].(closed := true)
  {
    run', steps' := OneMore(enc, run, steps, Shutdown, run[|run| - 1].(closed := true));
  }

  // After that nothing more is written.
  lemma {:induction false} ClosedForGood(enc: Encoder, run: seq<State>, steps: seq<Step>, i: nat, j: nat)
    requires IsRun(enc, run, steps) && i <= j < |run| && run[i].closed
    ensures run[j].closed && run[j].wire == run[i].wire
    decreases j
  {
    if i < j {
      ClosedForGood(enc, run, steps, i, j - 1);
      assert Next(enc, run[j - 1], steps[j - 1], run[j]);
    }
  }

  // The socket is closed between packets: unless a failed write tore one before, only whole packets are on the wire
  // then and ever after.
  lemma ClosedBetweenPackets(enc: Encoder, run: seq<State>, steps: seq<Step>, i: nat, j: nat)
    requires IsRun(enc, run, steps) && (forall p :: enc(p) != [])
    requires i < j < |run| && steps[i] == Shutdown && !run[i].torn && !run[i].garbled
    ensures run[j].wire == WholePackets(enc, Packets(run[i].done))
  {
    RunInv(enc, run, steps, i);
    assert Next(enc, run[i], steps[i], run[i + 1]);
    ClosedForGood(enc, run, steps, i + 1, j);
    NothingLeft(WholePackets(enc, Packets(run[i].done)));
  }
}
