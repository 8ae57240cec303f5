/** What a subscription gets, from the moment it is asked for (mcanbus/src/reader.rs:134-188). */
module FanOutSubscription {
  import opened Frames
  import opened FanOut
  import opened FanOutCulling

  // ---------------------------------------------------------------- client steps

  /** A new subscriber has the queue it asked for, empty, and counters at zero. */
  lemma AllocatedAsAsked(s: State, s': State, t: Sid, addr: Addr, capacity: Option<nat>)
    requires Allocate(s, s', t, addr, capacity)
    ensures t in s'.subs && s'.subs[t].capacity == capacity && s'.subs[t].rxAlive && s'.subs[t].handle
    ensures s'.subs[t].queue == [] && s'.subs[t].received == 0 && s'.subs[t].dropped == 0
    ensures forall u :: u in s.subs ==> u in s'.subs && s'.subs[u] == s.subs[u]
  {
  }

  /** Registering puts it at the end of the list. */
  lemma PushRegisters(s: State, s': State, t: Sid)
    requires Push(s, s', t)
    ensures s'.list == s.list + [t] && s'.subs[t].pushed
  {
  }

  /** A receive takes the oldest frame. */
  lemma ConsumeTakesOldest(s: State, s': State, t: Sid)
    requires Consume(s, s', t)
    ensures var u, u' := s.subs[t], s'.subs[t];
            && u'.consumed + u'.queue == u.consumed + u.queue
            && |u'.consumed| == |u.consumed| + 1 && u'.consumed[|u.consumed|] == u.queue[0]
  {
    var u := s.subs[t];
    assert u.queue == [u.queue[0]] + u.queue[1..];
  }

  /** Dropping a subscriber's receiver leaves it gone, for the next fan-out to find. */
  lemma DroppedIsGone(s: State, s': State, t: Sid)
    requires DropReceiver(s, s', t)
    ensures Gone(s', t)
  {
  }

  /** A frame is turned away only by a queue with no room left, and let in only with room. */
  lemma TurnedAwayWhenFull(s: State, s': State)
    requires Reachable(s) && (SendFull(s, s') || SendAccepted(s, s'))
    ensures var u := s.subs[s.pc.snapshot[s.pc.i]];
            && (SendFull(s, s') ==> u.capacity.Some? && |u.queue| == u.capacity.value)
            && (SendAccepted(s, s') ==> u.capacity.None? || |u.queue| < u.capacity.value)
  {
    ReachableInv(s);
    assert CountersOk(s, s.pc.snapshot[s.pc.i]);
  }

  // ---------------------------------------------------------------- steps in general

  /** Subscribers stay, with the capacity and address they have. */
  lemma SubscriptionStays(s: State, s': State, t: Sid)
    requires Next(s, s') && t in s.subs
    ensures t in s'.subs && s'.subs[t].capacity == s.subs[t].capacity && s'.subs[t].addr == s.subs[t].addr
  {
    if ReaderStep(s, s') {
      ReaderSubscriptionStays(s, s', t);
    } else {
      var u :| ClientStep(s, s', u);
      ClientSubscriptionStays(s, s', u, t);
    }
  }

  lemma ReaderSubscriptionStays(s: State, s': State, t: Sid)
    requires ReaderStep(s, s') && t in s.subs
    ensures t in s'.subs && s'.subs[t].capacity == s.subs[t].capacity && s'.subs[t].addr == s.subs[t].addr
  {
  }

  lemma ClientSubscriptionStays(s: State, s': State, u: Sid, t: Sid)
    requires ClientStep(s, s', u) && t in s.subs
    ensures t in s'.subs && s'.subs[t].capacity == s.subs[t].capacity && s'.subs[t].addr == s.subs[t].addr
  {
  }

  lemma {:induction false} CapacityStays(run: seq<State>, a: nat, b: nat, t: Sid)
    requires Run(run) && a <= b < |run| && t in run[a].subs
    ensures t in run[b].subs && run[b].subs[t].capacity == run[a].subs[t].capacity
    decreases b - a
  {
    if a < b {
      CapacityStays(run, a, b - 1, t);
      assert Next(run[b - 1], run[b - 1 + 1]);
      SubscriptionStays(run[b - 1], run[b], t);
    }
  }

  // ---------------------------------------------------------------- whole runs

  /** In every run a subscriber opened without a bound loses nothing: as long as it lives, what it took
      and what it queues are all it is owed, and nothing was dropped. */
  lemma OpenedUnbounded(run: seq<State>, a: nat, b: nat, t: Sid, addr: Addr, k: nat)
    requires Run(run) && a < b < |run| && Allocate(run[a], run[a + 1], t, addr, None)
    requires k < |run[b].list| && run[b].list[k] == t
    ensures t in run[b].subs
    ensures var u := run[b].subs[t];
            u.rxAlive ==> u.consumed + u.queue == Owed(run[b], k) && u.dropped == 0
  {
    AllocatedAsAsked(run[a], run[a + 1], t, addr, None);
    CapacityStays(run, a + 1, b, t);
    PrefixReachable(run, b);
    UnboundedHasAll(run[b], k);
  }

  /** One opened with a bound holds at most that many frames, of those it is owed the accepted ones. */
  lemma OpenedBounded(run: seq<State>, a: nat, b: nat, t: Sid, addr: Addr, capacity: nat, k: nat)
    requires Run(run) && a < b < |run| && Allocate(run[a], run[a + 1], t, addr, Some(capacity))
    requires k < |run[b].list| && run[b].list[k] == t
    ensures t in run[b].subs
    ensures var u := run[b].subs[t];
            u.rxAlive ==>
              && |u.queue| <= capacity
              && Tried(u.attempts) == Owed(run[b], k) && u.consumed + u.queue == Accepted(u.attempts)
  {
    AllocatedAsAsked(run[a], run[a + 1], t, addr, Some(capacity));
    CapacityStays(run, a + 1, b, t);
    PrefixReachable(run, b);
    BoundedHasAccepted(run[b], k);
  }

  lemma PrefixReachable(run: seq<State>, b: nat)
    requires Run(run) && b < |run|
    ensures Reachable(run[b])
  {
    var before := run[..b + 1];
    forall i, j | 0 <= i < j < |before| && j == i + 1
      ensures Next(before[i], before[j])
    {
      assert Next(run[i], run[j]);
    }
    assert Run(before) && before[|before| - 1] == run[b];
  }

  /** While it lives, t has every batch from number `from` on, and no batch before number `low`. */
  predicate Served(s: State, t: Sid, low: nat, from: nat) {
    && t in s.subs && s.subs[t].pushed && low <= from <= |s.batches|
    && (s.subs[t].rxAlive ==>
          match s.subs[t].since
          case Some(b) => low <= b <= from
          case None => |s.batches| == from)
  }

  lemma SnapshotServes(s: State, s': State, t: Sid, low: nat, from: nat)
    requires LiveOk(s) && TakeSnapshot(s, s') && Served(s, t, low, from)
    ensures Served(s', t, low, from)
  {
    assert s.subs[t].rxAlive ==> t in s.list;
  }

  lemma OtherwiseServes(s: State, s': State, t: Sid, low: nat, from: nat)
    requires ReaderStep(s, s') && !TakeSnapshot(s, s') && Served(s, t, low, from)
    ensures Served(s', t, low, from)
  {
    assert s'.batches == s.batches;
  }

  lemma ReaderServes(s: State, s': State, t: Sid, low: nat, from: nat)
    requires LiveOk(s) && ReaderStep(s, s') && Served(s, t, low, from)
    ensures Served(s', t, low, from)
  {
    if TakeSnapshot(s, s') {
      SnapshotServes(s, s', t, low, from);
    } else {
      OtherwiseServes(s, s', t, low, from);
    }
  }

  lemma ClientServes(s: State, s': State, u: Sid, t: Sid, low: nat, from: nat)
    requires ClientStep(s, s', u) && Served(s, t, low, from)
    ensures Served(s', t, low, from)
  {
  }

  lemma {:induction false} ServedRun(run: seq<State>, a: nat, b: nat, t: Sid, low: nat, from: nat)
    requires Run(run) && a <= b < |run| && Served(run[a], t, low, from)
    ensures Served(run[b], t, low, from)
    decreases b - a
  {
    if a < b {
      ServedRun(run, a, b - 1, t, low, from);
      RunInv(run, b - 1);
      assert Next(run[b - 1], run[b - 1 + 1]);
      if ReaderStep(run[b - 1], run[b]) {
        ReaderServes(run[b - 1], run[b], t, low, from);
      } else {
        var u :| ClientStep(run[b - 1], run[b], u);
        ClientServes(run[b - 1], run[b], u, t, low, from);
      }
    }
  }

  /** In every run a subscriber registered at some moment (a) is served from the first batch whose fan-out
      begins after that, while it lives: none of those passes it by, and none from before reaches it. */
  lemma RegisteredIsServed(run: seq<State>, a: nat, b: nat, t: Sid)
    requires Run(run) && a < b < |run| && Push(run[a], run[a + 1], t)
    ensures t in run[b].subs
    ensures var u, from := run[b].subs[t], |run[a].batches|;
            u.rxAlive ==> u.since == if |run[b].batches| > from then Some(from) else None
  {
    var from := |run[a].batches|;
    RunInv(run, a);
    assert Served(run[a + 1], t, from, from);
    ServedRun(run, a + 1, b, t, from, from);
    UnservedRun(run, a + 1, b, t);
  }

  /** Before any batch has begun there is none to be served. */
  lemma UnservedRun(run: seq<State>, a: nat, b: nat, t: Sid)
    requires Run(run) && a <= b < |run| && t in run[b].subs && Served(run[b], t, |run[a].batches|, |run[a].batches|)
    ensures run[b].subs[t].rxAlive && run[b].subs[t].since.Some? ==> |run[b].batches| > |run[a].batches|
  {
    RunInv(run, b);
    var s := run[b];
    if s.subs[t].rxAlive {
      var k :| 0 <= k < |s.list| && s.list[k] == t;
      assert StreamOk(s, k);
    }
  }

  /** So between fan-outs an unbounded one has exactly the batches begun since it was registered. */
  lemma RegisteredHasAll(run: seq<State>, a: nat, b: nat, t: Sid)
    requires Run(run) && a < b < |run| && Push(run[a], run[a + 1], t) && !run[b].pc.Fanning()
    ensures t in run[b].subs && |run[a].batches| <= |run[b].batches|
    ensures var u := run[b].subs[t];
            u.rxAlive && u.capacity.None? ==>
              u.consumed + u.queue == Flat(run[b].batches[|run[a].batches|..]) && u.dropped == 0
  {
    RegisteredIsServed(run, a, b, t);
    RunInv(run, a);
    ServedRun(run, a + 1, b, t, |run[a].batches|, |run[a].batches|);
    RunInv(run, b);
    var s := run[b];
    if s.subs[t].rxAlive {
      var k :| 0 <= k < |s.list| && s.list[k] == t;
      PrefixReachable(run, b);
      SettledHasAll(s, k);
      UnboundedHasAll(s, k);
      assert s.batches[|s.batches|..] == [];
    }
  }

  // ---------------------------------------------------------------- shutdown

  /** The stop flag, once set, stays set, and a stopped reader stays stopped. */
  lemma StopStays(s: State, s': State)
    requires Next(s, s')
    ensures s.stop ==> s'.stop
    ensures s.pc.Stopped? ==> s'.pc.Stopped?
  {
    if ReaderStep(s, s') {
    } else {
      var u :| ClientStep(s, s', u);
    }
  }

  /** `shutdown` sets it, and the reader stops the next time it looks. */
  lemma ShutdownStops(s: State, s': State, s'': State)
    requires SetStop(s, s') && LoopHead(s', s'')
    ensures s'.stop && s''.pc.Stopped?
  {
  }

  lemma {:induction false} StoppedRun(run: seq<State>, a: nat, b: nat)
    requires Run(run) && a <= b < |run| && run[a].stop
    ensures run[b].stop && (run[a].pc.Stopped? ==> run[b].pc.Stopped?)
    decreases b - a
  {
    if a < b {
      StoppedRun(run, a, b - 1);
      assert Next(run[b - 1], run[b - 1 + 1]);
      StopStays(run[b - 1], run[b]);
    }
  }

  function Committed(pc: Pc): nat {
    One(pc.Receive? || pc.Snapshot?)
  }

  /** A batch begins only if the reader had already looked at the flag. */
  lemma StopBudget(s: State, s': State)
    requires Next(s, s') && s.stop
    ensures |s'.batches| + Committed(s'.pc) <= |s.batches| + Committed(s.pc)
  {
    if ReaderStep(s, s') {
    } else {
      var u :| ClientStep(s, s', u);
    }
  }

  lemma {:induction false} StopBudgetRun(run: seq<State>, a: nat, b: nat)
    requires Run(run) && a <= b < |run| && run[a].stop
    ensures |run[b].batches| + Committed(run[b].pc) <= |run[a].batches| + Committed(run[a].pc)
    decreases b - a
  {
    if a < b {
      StopBudgetRun(run, a, b - 1);
      StoppedRun(run, a, b - 1);
      assert Next(run[b - 1], run[b - 1 + 1]);
      StopBudget(run[b - 1], run[b]);
    }
  }

  /** In every run at most one more batch begins once the flag is set, and none if the reader has yet to
      look at it again. */
  lemma AtMostOneAfterStop(run: seq<State>, a: nat, b: nat)
    requires Run(run) && a <= b < |run| && run[a].stop
    ensures |run[b].batches| <= |run[a].batches| + 1
    ensures !run[a].pc.Receive? && !run[a].pc.Snapshot? ==> |run[b].batches| <= |run[a].batches|
  {
    StopBudgetRun(run, a, b);
  }

  // ---------------------------------------------------------------- clients are never held up

  lemma {:induction false} Unused(addrs: set<Addr>) returns (bound: Addr)
    ensures forall a :: a in addrs ==> a < bound
    decreases |addrs|
  {
    bound := 0;
    if addrs != {} {
      var x :| x in addrs;
      var others := Unused(addrs - {x});
      bound := if x < others then others else x + 1;
      forall a | a in addrs
        ensures a < bound
      {
        assert a == x || a in addrs - {x};
      }
    }
  }

  /** Anyone can subscribe whatever the reader is doing, with any queue of room for a frame or more... */
  lemma SubscribeAnytime(s: State, t: Sid, capacity: Option<nat>) returns (s': State, addr: Addr)
    requires t !in s.subs && (capacity.Some? ==> capacity.value >= 1)
    ensures Allocate(s, s', t, addr, capacity)
  {
    var addrs := set u | u in s.subs :: s.subs[u].addr;
    addr := Unused(addrs);
    forall u | u in s.subs
      ensures s.subs[u].addr != addr
    {
      assert s.subs[u].addr in addrs;
    }
    s' := s.(subs := s.subs[t := Sub(addr, capacity, false, true, true, [], 0, 0, [], [], [], None)]);
  }

  /** ...register, take a frame that is there... */
  lemma RegisterAndTakeAnytime(s: State, t: Sid)
    requires t in s.subs
    ensures !s.subs[t].pushed ==> exists s' :: Push(s, s', t)
    ensures s.subs[t].rxAlive && s.subs[t].queue != [] ==> exists s' :: Consume(s, s', t)
  {
    var u := s.subs[t];
    if !u.pushed {
      assert Push(s, s.(subs := s.subs[t := u.(pushed := true)], list := s.list + [t]), t);
    }
    if u.rxAlive && u.queue != [] {
      var u' := u.(queue := u.queue[1..], consumed := u.consumed + [u.queue[0]], log := u.log + [Take]);
      assert Consume(s, s.(subs := s.subs[t := u']), t);
    }
  }

  /** ...drop a receiver, and shut down. */
  lemma LeaveAnytime(s: State, t: Sid)
    ensures t in s.subs && s.subs[t].rxAlive && s.subs[t].pushed ==> exists s' :: DropReceiver(s, s', t)
    ensures exists s' :: SetStop(s, s')
  {
    if t in s.subs && s.subs[t].rxAlive && s.subs[t].pushed {
      assert DropReceiver(s, s.(subs := s.subs[t := s.subs[t].(rxAlive := false, queue := [])]), t);
    }
    assert SetStop(s, s.(stop := true));
  }
}
