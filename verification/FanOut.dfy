/** The multi-consumer fan-out reader as interleaved atomic steps (mcanbus/src/reader.rs).

  One reader thread and any number of clients: the state below changes by one lock section, channel
  operation, counter update or reference drop at a time, in any order.  Subscribers are counted
  references to heap cells whose addresses are reused once the last reference is gone.
 */
module FanOut {
  import opened Frames

  type Sid = nat  // a subscription, for bookkeeping only: never reused
  type Addr = nat // where its shared half lives: may be reused

  datatype Attempt = Attempt(frame: Frame, accepted: bool)

  /** What happens at one subscriber: a try_send, the counter update after it, a frame consumed. */
  datatype Local = Try | Count | Take

  datatype Sub = Sub(
    addr: Addr,
    capacity: Option<nat>, // None for an unbounded queue
    pushed: bool,          // in the reader's list since subscribe returned
    rxAlive: bool,         // the receiving half exists
    handle: bool,          // the client's reference to the shared half exists
    queue: seq<Frame>,
    received: nat,
    dropped: nat,
    consumed: seq<Frame>,    // history: frames the client took
    attempts: seq<Attempt>,  // history: sends the reader tried
    log: seq<Local>,         // history: order of the above
    since: Option<nat>       // history: the first batch whose snapshot has it
  )

  datatype Pc =
    | CheckStop
    | Receive
    | Snapshot(batch: seq<Frame>)
    | Fan(batch: seq<Frame>, snapshot: seq<Sid>, i: nat, j: nat, dead: seq<Addr>)
    | Bump(batch: seq<Frame>, snapshot: seq<Sid>, i: nat, j: nat, dead: seq<Addr>, accepted: bool)
    | NoteDead(batch: seq<Frame>, snapshot: seq<Sid>, i: nat, dead: seq<Addr>)
    | Retain(dead: seq<Addr>)
    | Stopped
  {
    predicate Fanning() { Fan? || Bump? || NoteDead? }
  }

  datatype State = State(
    subs: map<Sid, Sub>,
    list: seq<Sid>,
    stop: bool,
    pc: Pc,
    batches: seq<seq<Frame>>, // history: batches whose fan-out began
    lateBatches: nat,         // history: how many of them after stop was set
    found: seq<Sid>           // history: subscribers found disconnected in this fan-out
  )

  ghost predicate Init(s: State) {
    s == State(map[], [], false, CheckStop, [], 0, [])
  }

  // ---------------------------------------------------------------- ownership

  /** Some reference to the shared half exists, so its address cannot be reused. */
  predicate Owned(s: State, t: Sid)
    requires t in s.subs
  {
    t in s.list || (s.pc.Fanning() && t in s.pc.snapshot) || s.subs[t].handle
  }

  // ---------------------------------------------------------------- client steps

  /** `subscribe` / `subscribe_bounded`, first half: the channel and its shared half. */
  ghost predicate Allocate(s: State, s': State, t: Sid, addr: Addr, capacity: Option<nat>) {
    && t !in s.subs && (capacity.Some? ==> capacity.value >= 1)
    && (forall u :: u in s.subs && Owned(s, u) ==> s.subs[u].addr != addr)
    && s' == s.(subs := s.subs[t := Sub(addr, capacity, false, true, true, [], 0, 0, [], [], [], None)])
  }

  /** `subscribe`, second half: the push under the lock. */
  ghost predicate Push(s: State, s': State, t: Sid) {
    && t in s.subs && !s.subs[t].pushed
    && s' == s.(subs := s.subs[t := s.subs[t].(pushed := true)], list := s.list + [t])
  }

  /** `recv`, `recv_timeout` or `try_recv` returning a frame. */
  ghost predicate Consume(s: State, s': State, t: Sid) {
    && t in s.subs && s.subs[t].rxAlive && s.subs[t].queue != []
    && var u := s.subs[t];
       s' == s.(subs := s.subs[t := u.(queue := u.queue[1..], consumed := u.consumed + [u.queue[0]],
                                        log := u.log + [Take])])
  }

  /** Dropping a Subscriber, field by field: the receiver with what it queues... */
  ghost predicate DropReceiver(s: State, s': State, t: Sid) {
    && t in s.subs && s.subs[t].pushed && s.subs[t].rxAlive
    && s' == s.(subs := s.subs[t := s.subs[t].(rxAlive := false, queue := [])])
  }

  /** ...then the reference to the shared half. */
  ghost predicate DropHandle(s: State, s': State, t: Sid) {
    && t in s.subs && !s.subs[t].rxAlive && s.subs[t].handle
    && s' == s.(subs := s.subs[t := s.subs[t].(handle := false)])
  }

  /** `shutdown` or dropping the Reader. */
  ghost predicate SetStop(s: State, s': State) {
    s' == s.(stop := true)
  }

  ghost predicate ClientStep(s: State, s': State, t: Sid) {
    || (exists addr, capacity :: Allocate(s, s', t, addr, capacity))
    || Push(s, s', t) || Consume(s, s', t) || DropReceiver(s, s', t) || DropHandle(s, s', t) || SetStop(s, s')
  }

  // ---------------------------------------------------------------- reader steps

  ghost predicate LoopHead(s: State, s': State) {
    s.pc.CheckStop? && s' == s.(pc := if s.stop then Stopped else Receive)
  }

  /** Nothing received, or an error: back to the stop flag. */
  ghost predicate ReceiveNothing(s: State, s': State) {
    s.pc.Receive? && s' == s.(pc := CheckStop)
  }

  ghost predicate ReceiveBatch(s: State, s': State, batch: seq<Frame>) {
    s.pc.Receive? && batch != [] && s' == s.(pc := Snapshot(batch))
  }

  function Joined(s: State): map<Sid, Sub> {
    map t | t in s.subs ::
      if t in s.list && s.subs[t].since.None? then s.subs[t].(since := Some(|s.batches|)) else s.subs[t]
  }

  /** Cloning the list under the lock. */
  ghost predicate TakeSnapshot(s: State, s': State) {
    && s.pc.Snapshot?
    && s' == s.(subs := Joined(s), batches := s.batches + [s.pc.batch],
                lateBatches := s.lateBatches + (if s.stop then 1 else 0), found := [],
                pc := Fan(s.pc.batch, s.list, 0, 0, []))
  }

  predicate Full(u: Sub) {
    u.capacity.Some? && |u.queue| >= u.capacity.value
  }

  predicate AtSend(s: State) {
    s.pc.Fan? && s.pc.i < |s.pc.snapshot| && s.pc.j < |s.pc.batch| && s.pc.snapshot[s.pc.i] in s.subs
  }

  /** One try_send, to a subscriber whose receiver is gone... */
  ghost predicate SendDisconnected(s: State, s': State) {
    && AtSend(s) && var Fan(batch, snapshot, i, j, dead) := s.pc;
       && !s.subs[snapshot[i]].rxAlive
       && s' == s.(pc := NoteDead(batch, snapshot, i, dead))
  }

  /** ...to a full queue... */
  ghost predicate SendFull(s: State, s': State) {
    && AtSend(s) && var Fan(batch, snapshot, i, j, dead) := s.pc;
       var u := s.subs[snapshot[i]];
       && u.rxAlive && Full(u)
       && s' == s.(pc := Bump(batch, snapshot, i, j, dead, false),
                   subs := s.subs[snapshot[i] := u.(attempts := u.attempts + [Attempt(batch[j], false)],
                                                    log := u.log + [Try])])
  }

  /** ...or accepted. */
  ghost predicate SendAccepted(s: State, s': State) {
    && AtSend(s) && var Fan(batch, snapshot, i, j, dead) := s.pc;
       var u := s.subs[snapshot[i]];
       && u.rxAlive && !Full(u)
       && s' == s.(pc := Bump(batch, snapshot, i, j, dead, true),
                   subs := s.subs[snapshot[i] := u.(queue := u.queue + [batch[j]],
                                                    attempts := u.attempts + [Attempt(batch[j], true)],
                                                    log := u.log + [Try])])
  }

  ghost predicate TrySend(s: State, s': State) {
    SendDisconnected(s, s') || SendFull(s, s') || SendAccepted(s, s')
  }

  function After(batch: seq<Frame>, snapshot: seq<Sid>, i: nat, j: nat, dead: seq<Addr>): Pc {
    if j + 1 < |batch| then Fan(batch, snapshot, i, j + 1, dead) else Fan(batch, snapshot, i + 1, 0, dead)
  }

  ghost predicate BumpCounter(s: State, s': State) {
    && s.pc.Bump? && s.pc.i < |s.pc.snapshot| && s.pc.snapshot[s.pc.i] in s.subs
    && var Bump(batch, snapshot, i, j, dead, accepted) := s.pc;
       var u := s.subs[snapshot[i]];
       s' == s.(pc := After(batch, snapshot, i, j, dead),
                subs := s.subs[snapshot[i] :=
                  if accepted then u.(received := u.received + 1, log := u.log + [Count])
                  else u.(dropped := u.dropped + 1, log := u.log + [Count])])
  }

  /** `dead.push(Arc::as_ptr(sub)); break`. */
  ghost predicate PushDead(s: State, s': State) {
    && s.pc.NoteDead? && s.pc.i < |s.pc.snapshot| && s.pc.snapshot[s.pc.i] in s.subs
    && var NoteDead(batch, snapshot, i, dead) := s.pc;
       s' == s.(pc := Fan(batch, snapshot, i + 1, 0, dead + [s.subs[snapshot[i]].addr]),
                found := s.found + [snapshot[i]])
  }

  /** `drop(snapshot)`. */
  ghost predicate Release(s: State, s': State) {
    && s.pc.Fan? && s.pc.i == |s.pc.snapshot|
    && s' == s.(pc := if s.pc.dead == [] then CheckStop else Retain(s.pc.dead))
  }

  /** The subscribers `retain` keeps: those whose address is not noted, in order (KeptInOrder). */
  function Kept(subs: map<Sid, Sub>, list: seq<Sid>, dead: seq<Addr>): (kept: seq<Sid>)
    ensures forall t :: t in kept <==> t in list && t in subs && subs[t].addr !in dead
  {
    if list == [] then []
    else
      var before := Kept(subs, list[..|list| - 1], dead);
      var t := list[|list| - 1];
      if t in subs && subs[t].addr !in dead then before + [t] else before
  }

  /** `kept` is what stands at the increasing positions `at` of the list. */
  ghost predicate Positions(list: seq<Sid>, at: seq<nat>, kept: seq<Sid>) {
    && |at| == |kept|
    && (forall k :: 0 <= k < |at| ==> at[k] < |list| && kept[k] == list[at[k]])
    && (forall k, l :: 0 <= k < l < |at| ==> at[k] < at[l])
  }

  lemma PositionsNext(list: seq<Sid>, at: seq<nat>, kept: seq<Sid>)
    requires list != [] && Positions(list[..|list| - 1], at, kept)
    ensures Positions(list, at, kept) && Positions(list, at + [|list| - 1], kept + [list[|list| - 1]])
  {
  }

  predicate Stays(subs: map<Sid, Sub>, t: Sid, dead: seq<Addr>) {
    t in subs && subs[t].addr !in dead
  }

  /** The positions of the members kept, in increasing order: every one to be kept, and no other. */
  lemma {:induction false} KeptInOrder(subs: map<Sid, Sub>, list: seq<Sid>, dead: seq<Addr>) returns (at: seq<nat>)
    ensures Positions(list, at, Kept(subs, list, dead))
    ensures forall p: nat :: p < |list| ==> (p in at <==> Stays(subs, list[p], dead))
  {
    at := [];
    if list != [] {
      var n := |list| - 1;
      var before := KeptInOrder(subs, list[..n], dead);
      PositionsNext(list, before, Kept(subs, list[..n], dead));
      assert n !in before;
      at := if Stays(subs, list[n], dead) then before + [n] else before;
      forall p: nat | p < |list|
        ensures p in at <==> Stays(subs, list[p], dead)
      {
        assert p < n ==> list[..n][p] == list[p];
      }
    }
  }

  ghost predicate RetainLive(s: State, s': State) {
    && s.pc.Retain?
    && s' == s.(pc := CheckStop, list := Kept(s.subs, s.list, s.pc.dead))
  }

  ghost predicate ReaderStep(s: State, s': State) {
    || LoopHead(s, s') || ReceiveNothing(s, s') || (exists batch :: ReceiveBatch(s, s', batch))
    || TakeSnapshot(s, s') || TrySend(s, s') || BumpCounter(s, s') || PushDead(s, s')
    || Release(s, s') || RetainLive(s, s')
  }

  ghost predicate Next(s: State, s': State) {
    ReaderStep(s, s') || exists t :: ClientStep(s, s', t)
  }

  // ---------------------------------------------------------------- what a subscriber should have

  function Flat(batches: seq<seq<Frame>>): seq<Frame> {
    if batches == [] then [] else Flat(batches[..|batches| - 1]) + batches[|batches| - 1]
  }

  function Tried(attempts: seq<Attempt>): (fs: seq<Frame>)
    ensures |fs| == |attempts|
  {
    seq(|attempts|, k requires 0 <= k < |attempts| => attempts[k].frame)
  }

  /** The accepted attempts: a subsequence of what was tried. */
  function Accepted(attempts: seq<Attempt>): (fs: seq<Frame>)
    ensures |fs| <= |attempts|
  {
    if attempts == [] then []
    else
      var before := Accepted(attempts[..|attempts| - 1]);
      var last := attempts[|attempts| - 1];
      if last.accepted then before + [last.frame] else before
  }

  /** How many frames of the batch in progress were tried at snapshot position k. */
  function Progress(pc: Pc, k: nat): nat
    requires pc.Fanning()
  {
    if k < pc.i then |pc.batch|
    else if k > pc.i then 0
    else
      match pc
      case Fan(_, _, _, j, _) => j
      case Bump(_, _, _, j, _, _) => j + 1
      case _ => 0
  }

  /** Everything the reader owes the live subscriber at list position k so far. */
  function Owed(s: State, k: nat): seq<Frame>
    requires k < |s.list| && s.list[k] in s.subs
  {
    match s.subs[s.list[k]].since
    case None => []
    case Some(b) =>
      var n := |s.batches|;
      if b >= n then []
      else if s.pc.Fanning() then
        Flat(s.batches[b..n - 1]) + s.pc.batch[..Min(Progress(s.pc, k), |s.pc.batch|)]
      else Flat(s.batches[b..])
  }

  /** The reader is between a send at t and the counter update for it; accepted tells which. */
  predicate Uncounted(s: State, t: Sid, accepted: bool) {
    s.pc.Bump? && s.pc.i < |s.pc.snapshot| && s.pc.snapshot[s.pc.i] == t && s.pc.accepted == accepted
  }

  function One(b: bool): nat { if b then 1 else 0 }

  // ---------------------------------------------------------------- invariants

  ghost predicate Distinct(list: seq<Sid>) {
    forall k, l :: 0 <= k < l < |list| ==> list[k] != list[l]
  }

  ghost predicate ListOk(s: State) {
    && (forall k :: 0 <= k < |s.list| ==> s.list[k] in s.subs && s.subs[s.list[k]].pushed)
    && Distinct(s.list)
  }

  ghost predicate PcOk(s: State) {
    && (s.pc.Snapshot? ==> s.pc.batch != [])
    && (s.pc.Fanning() ==>
          && s.pc.snapshot <= s.list && s.pc.batch != []
          && |s.batches| > 0 && s.batches[|s.batches| - 1] == s.pc.batch
          && s.pc.i <= |s.pc.snapshot|
          && (s.pc.Fan? ==> s.pc.j < |s.pc.batch| && (s.pc.i == |s.pc.snapshot| ==> s.pc.j == 0))
          && (s.pc.Bump? ==> s.pc.j < |s.pc.batch| && s.pc.i < |s.pc.snapshot|)
          && (s.pc.NoteDead? ==>
                && s.pc.i < |s.pc.snapshot| && s.pc.snapshot[s.pc.i] in s.subs
                && !s.subs[s.pc.snapshot[s.pc.i]].rxAlive))
  }

  /** No two referenced shared halves have one address. */
  ghost predicate AddressesOk(s: State) {
    forall t, u :: t in s.subs && u in s.subs && t != u && Owned(s, t) && Owned(s, u) ==>
      s.subs[t].addr != s.subs[u].addr
  }

  function Dead(pc: Pc): seq<Addr> {
    match pc
    case Fan(_, _, _, _, dead) => dead
    case Bump(_, _, _, _, dead, _) => dead
    case NoteDead(_, _, _, dead) => dead
    case Retain(dead) => dead
    case _ => []
  }

  /** Every noted address belongs to a disconnected subscriber the list still owns. */
  ghost predicate DeadOk(s: State) {
    s.pc.Fanning() || s.pc.Retain? ==>
      && |s.found| == |Dead(s.pc)|
      && (forall k :: 0 <= k < |s.found| ==>
            s.found[k] in s.list && s.found[k] in s.subs && !s.subs[s.found[k]].rxAlive
            && Dead(s.pc)[k] == s.subs[s.found[k]].addr)
  }

  /** Live subscribers hold their handle, and stay in the list once pushed. */
  ghost predicate LiveOk(s: State) {
    forall t :: t in s.subs ==>
      var u := s.subs[t];
      && (u.rxAlive ==> u.handle)
      && (u.rxAlive && u.pushed ==> t in s.list)
      && (!u.pushed ==> u.since.None? && u.attempts == [] && u.rxAlive && t !in s.list)
      && (u.capacity.Some? ==> u.capacity.value >= 1)
  }

  ghost predicate CountersOk(s: State, t: Sid)
    requires t in s.subs
  {
    var u := s.subs[t];
    && u.received + One(Uncounted(s, t, true)) == |Accepted(u.attempts)|
    && u.dropped + One(Uncounted(s, t, false)) == |u.attempts| - |Accepted(u.attempts)|
    && (u.rxAlive ==> u.consumed + u.queue == Accepted(u.attempts))
    && (u.capacity.Some? ==> |u.queue| <= u.capacity.value)
    && (u.capacity.None? ==> Accepted(u.attempts) == Tried(u.attempts))
  }

  ghost predicate StreamOk(s: State, k: nat)
    requires k < |s.list| && s.list[k] in s.subs
  {
    var u := s.subs[s.list[k]];
    && (u.since.Some? ==> u.since.value < |s.batches|)
    && (s.pc.Fanning() ==> (u.since.None? <==> k >= |s.pc.snapshot|))
    && (u.rxAlive ==> Tried(u.attempts) == Owed(s, k))
  }

  ghost predicate StopOk(s: State) {
    && (!s.stop ==> s.lateBatches == 0)
    && s.lateBatches + One(s.stop && (s.pc.Receive? || s.pc.Snapshot?)) <= 1
  }

  ghost predicate Structure(s: State) {
    ListOk(s) && PcOk(s) && AddressesOk(s) && DeadOk(s) && LiveOk(s) && StopOk(s)
  }

  ghost predicate Counters(s: State) {
    forall t :: t in s.subs ==> CountersOk(s, t)
  }

  ghost predicate Streams(s: State) {
    forall k :: 0 <= k < |s.list| ==> s.list[k] in s.subs && StreamOk(s, k)
  }

  ghost predicate Inv(s: State) {
    Structure(s) && Counters(s) && Streams(s)
  }

  // ---------------------------------------------------------------- preservation: shared parts

  /** What is referenced afterwards was referenced before, at the same address. */
  lemma FewerOwned(s: State, s': State)
    requires AddressesOk(s) && forall t :: t in s'.subs <==> t in s.subs
    requires forall t :: t in s.subs ==> s'.subs[t].addr == s.subs[t].addr && (Owned(s', t) ==> Owned(s, t))
    ensures AddressesOk(s')
  {
    forall t, u | t in s'.subs && u in s'.subs && t != u && Owned(s', t) && Owned(s', u)
      ensures s'.subs[t].addr != s'.subs[u].addr
    {
      assert Owned(s, t) && Owned(s, u);
    }
  }

  /** A client step inside one subscriber: it takes frames or gives up references, in order. */
  ghost predicate Shrinks(u: Sub, u': Sub) {
    && u'.addr == u.addr && u'.capacity == u.capacity && u'.pushed == u.pushed && u'.since == u.since
    && u'.attempts == u.attempts && u'.received == u.received && u'.dropped == u.dropped
    && |u'.queue| <= |u.queue|
    && (u'.rxAlive ==> u.rxAlive && u'.handle == u.handle && u'.consumed + u'.queue == u.consumed + u.queue)
    && (u'.handle ==> u.handle) && (!u.pushed ==> u'.rxAlive)
  }

  ghost predicate ClientOnly(s: State, s': State) {
    && s'.list == s.list && s'.pc == s.pc && s'.batches == s.batches && s'.lateBatches == s.lateBatches
    && s'.found == s.found && (s.stop ==> s'.stop)
    && (forall t :: t in s'.subs <==> t in s.subs)
    && (forall t :: t in s.subs ==> Shrinks(s.subs[t], s'.subs[t]))
  }

  lemma ClientStructure(s: State, s': State)
    requires Structure(s) && ClientOnly(s, s')
    ensures Structure(s')
  {
    assert AddressesOk(s') by {
      FewerOwned(s, s');
    }
  }

  lemma ClientCounters(s: State, s': State)
    requires Counters(s) && ClientOnly(s, s')
    ensures Counters(s')
  {
    forall t | t in s'.subs ensures CountersOk(s', t) {
      assert CountersOk(s, t) && Shrinks(s.subs[t], s'.subs[t]);
    }
  }

  lemma ClientStreams(s: State, s': State)
    requires Streams(s) && ClientOnly(s, s')
    ensures Streams(s')
  {
    forall k | 0 <= k < |s'.list| ensures s'.list[k] in s'.subs && StreamOk(s', k) {
      assert StreamOk(s, k) && Shrinks(s.subs[s.list[k]], s'.subs[s.list[k]]);
      assert Owed(s', k) == Owed(s, k);
    }
  }

  lemma ClientKeeps(s: State, s': State)
    requires Inv(s) && ClientOnly(s, s')
    ensures Inv(s')
  {
    ClientStructure(s, s');
    ClientCounters(s, s');
    ClientStreams(s, s');
  }

  lemma ConsumeIsClient(s: State, s': State, t: Sid)
    requires LiveOk(s) && Consume(s, s', t)
    ensures ClientOnly(s, s')
  {
    var u, u' := s.subs[t], s'.subs[t];
    assert u.queue == [u.queue[0]] + u.queue[1..];
    assert u'.consumed + u'.queue == u.consumed + u.queue;
  }

  lemma ReleaseIsClient(s: State, s': State, t: Sid)
    requires LiveOk(s) && (DropReceiver(s, s', t) || DropHandle(s, s', t) || SetStop(s, s'))
    ensures ClientOnly(s, s')
  {
  }

  lemma LetGoKeeps(s: State, s': State, t: Sid)
    requires Inv(s) && (Consume(s, s', t) || DropReceiver(s, s', t) || DropHandle(s, s', t) || SetStop(s, s'))
    ensures Inv(s')
  {
    if Consume(s, s', t) {
      ConsumeIsClient(s, s', t);
    } else {
      ReleaseIsClient(s, s', t);
    }
    ClientKeeps(s, s');
  }

  // ---- subscribing

  lemma AllocateStructure(s: State, s': State, t: Sid, addr: Addr, capacity: Option<nat>)
    requires Structure(s) && Allocate(s, s', t, addr, capacity)
    ensures Structure(s')
  {
    assert forall u :: u in s.subs ==> s'.subs[u] == s.subs[u] && u != t;
    forall u, v | u in s'.subs && v in s'.subs && u != v && Owned(s', u) && Owned(s', v)
      ensures s'.subs[u].addr != s'.subs[v].addr
    {
      if u != t { assert Owned(s, u); }
      if v != t { assert Owned(s, v); }
    }
  }

  lemma AllocateCounters(s: State, s': State, t: Sid, addr: Addr, capacity: Option<nat>)
    requires ListOk(s) && PcOk(s) && Counters(s) && Allocate(s, s', t, addr, capacity)
    ensures Counters(s')
  {
    forall u | u in s'.subs ensures CountersOk(s', u) {
      if u != t { assert CountersOk(s, u); }
    }
  }

  lemma AllocateStreams(s: State, s': State, t: Sid, addr: Addr, capacity: Option<nat>)
    requires Streams(s) && Allocate(s, s', t, addr, capacity)
    ensures Streams(s')
  {
    forall k | 0 <= k < |s'.list| ensures s'.list[k] in s'.subs && StreamOk(s', k) {
      assert StreamOk(s, k) && Owed(s', k) == Owed(s, k);
    }
  }

  lemma AllocateKeeps(s: State, s': State, t: Sid, addr: Addr, capacity: Option<nat>)
    requires Inv(s) && Allocate(s, s', t, addr, capacity)
    ensures Inv(s')
  {
    AllocateStructure(s, s', t, addr, capacity);
    AllocateCounters(s, s', t, addr, capacity);
    AllocateStreams(s, s', t, addr, capacity);
  }

  lemma PushStructure(s: State, s': State, t: Sid)
    requires Structure(s) && Push(s, s', t)
    ensures Structure(s')
  {
    assert forall u :: u in s'.list <==> u in s.list || u == t;
    assert AddressesOk(s') by {
      FewerOwned(s, s');
    }
  }

  lemma PushKeeps(s: State, s': State, t: Sid)
    requires Inv(s) && Push(s, s', t)
    ensures Inv(s')
  {
    PushStructure(s, s', t);
    forall u | u in s'.subs ensures CountersOk(s', u) {
      assert CountersOk(s, u);
    }
    forall k | 0 <= k < |s'.list| ensures s'.list[k] in s'.subs && StreamOk(s', k) {
      if k < |s.list| {
        assert s'.list[k] == s.list[k] && s.list[k] != t && StreamOk(s, k) && Owed(s', k) == Owed(s, k);
      }
    }
  }

  // ---- the reader

  lemma QuietCounters(s: State, s': State)
    requires Counters(s) && s'.subs == s.subs && !s.pc.Bump? && !s'.pc.Bump?
    ensures Counters(s')
  {
    forall t | t in s'.subs ensures CountersOk(s', t) {
      assert CountersOk(s, t);
    }
  }

  lemma QuietKeeps(s: State, s': State)
    requires Inv(s)
    requires LoopHead(s, s') || ReceiveNothing(s, s') || exists batch :: ReceiveBatch(s, s', batch)
    ensures Inv(s')
  {
    assert AddressesOk(s') by {
      FewerOwned(s, s');
    }
    QuietCounters(s, s');
    forall k | 0 <= k < |s'.list| ensures s'.list[k] in s'.subs && StreamOk(s', k) {
      assert StreamOk(s, k) && Owed(s', k) == Owed(s, k);
    }
  }

  lemma TakeSnapshotStructure(s: State, s': State)
    requires Structure(s) && TakeSnapshot(s, s')
    ensures Structure(s')
  {
    assert AddressesOk(s') by {
      FewerOwned(s, s');
    }
  }

  lemma TakeSnapshotCounters(s: State, s': State)
    requires Counters(s) && TakeSnapshot(s, s')
    ensures Counters(s')
  {
    forall t | t in s'.subs ensures CountersOk(s', t) {
      assert CountersOk(s, t);
    }
  }

  lemma TakeSnapshotStreams(s: State, s': State)
    requires Structure(s) && Streams(s) && TakeSnapshot(s, s')
    ensures Streams(s')
  {
    forall k | 0 <= k < |s'.list| ensures s'.list[k] in s'.subs && StreamOk(s', k) {
      assert StreamOk(s, k);
      var b := s'.subs[s'.list[k]].since.value;
      assert s'.batches[b..|s.batches|] == s.batches[b..];
      assert s.pc.batch[..0] == [];
    }
  }

  ghost predicate SameIdentity(u: Sub, u': Sub) {
    && u'.addr == u.addr && u'.capacity == u.capacity && u'.pushed == u.pushed && u'.since == u.since
    && u'.rxAlive == u.rxAlive && u'.handle == u.handle && (u.pushed || u'.attempts == u.attempts)
  }

  /** A reader step inside one subscriber. */
  ghost predicate Touches(s: State, s': State, t: Sid) {
    && t in s.subs && s'.subs.Keys == s.subs.Keys
    && (forall u :: u in s.subs && u != t ==> s'.subs[u] == s.subs[u])
    && SameIdentity(s.subs[t], s'.subs[t])
    && s'.list == s.list && s'.stop == s.stop && s'.batches == s.batches && s'.lateBatches == s.lateBatches
    && s'.found == s.found && s.pc.Fanning() && s'.pc.Fanning()
    && s'.pc.snapshot == s.pc.snapshot && s'.pc.batch == s.pc.batch && Dead(s'.pc) == Dead(s.pc)
  }

  lemma TouchStructure(s: State, s': State, t: Sid)
    requires Structure(s) && Touches(s, s', t) && PcOk(s') && DeadOk(s')
    ensures Structure(s')
  {
    assert AddressesOk(s') by {
      FewerOwned(s, s');
    }
  }

  lemma DisconnectedKeeps(s: State, s': State)
    requires Inv(s) && SendDisconnected(s, s')
    ensures Inv(s')
  {
    TouchStructure(s, s', s.pc.snapshot[s.pc.i]);
    QuietCounters(s, s');
    forall k | 0 <= k < |s'.list| ensures s'.list[k] in s'.subs && StreamOk(s', k) {
      assert StreamOk(s, k);
      if k != s.pc.i {
        assert Owed(s', k) == Owed(s, k);
      }
    }
  }

  lemma AcceptedSnoc(attempts: seq<Attempt>, a: Attempt)
    ensures Accepted(attempts + [a]) == Accepted(attempts) + if a.accepted then [a.frame] else []
    ensures Tried(attempts + [a]) == Tried(attempts) + [a.frame]
  {
    assert (attempts + [a])[..|attempts|] == attempts;
  }

  lemma SentStructure(s: State, s': State)
    requires Structure(s) && (SendFull(s, s') || SendAccepted(s, s'))
    ensures Structure(s')
  {
    var t := s.pc.snapshot[s.pc.i];
    assert s.list[s.pc.i] == t;
    TouchStructure(s, s', t);
  }

  lemma SentCounted(s: State, s': State)
    requires Structure(s) && (SendFull(s, s') || SendAccepted(s, s')) && CountersOk(s, s.pc.snapshot[s.pc.i])
    ensures CountersOk(s', s.pc.snapshot[s.pc.i])
  {
    var t, frame := s.pc.snapshot[s.pc.i], s.pc.batch[s.pc.j];
    AcceptedSnoc(s.subs[t].attempts, Attempt(frame, s'.pc.accepted));
  }

  lemma SentCounters(s: State, s': State)
    requires Structure(s) && Counters(s) && (SendFull(s, s') || SendAccepted(s, s'))
    ensures Counters(s')
  {
    SentCounted(s, s');
    forall u | u in s'.subs && u != s.pc.snapshot[s.pc.i] ensures CountersOk(s', u) {
      assert CountersOk(s, u);
    }
  }

  lemma OwedGrows(s: State, s': State)
    requires s.pc.Fan? && s.pc.i < |s.list| && s.list[s.pc.i] in s.subs && s.pc.j < |s.pc.batch|
    requires s'.pc.Bump? && s'.pc.i == s.pc.i && s'.pc.j == s.pc.j && s'.pc.batch == s.pc.batch
    requires s'.list == s.list && s'.batches == s.batches && s.list[s.pc.i] in s'.subs
    requires var since := s.subs[s.list[s.pc.i]].since;
             s'.subs[s.list[s.pc.i]].since == since && since.Some? && since.value < |s.batches|
    ensures Owed(s', s.pc.i) == Owed(s, s.pc.i) + [s.pc.batch[s.pc.j]]
  {
    var j := s.pc.j;
    assert s.pc.batch[..j + 1] == s.pc.batch[..j] + [s.pc.batch[j]];
  }

  lemma SentStream(s: State, s': State)
    requires Structure(s) && Streams(s) && (SendFull(s, s') || SendAccepted(s, s'))
    ensures s'.list[s.pc.i] in s'.subs && StreamOk(s', s.pc.i)
  {
    var i := s.pc.i;
    assert StreamOk(s, i) && s.list[i] == s.pc.snapshot[i];
    AcceptedSnoc(s.subs[s.list[i]].attempts, Attempt(s.pc.batch[s.pc.j], s'.pc.accepted));
    OwedGrows(s, s');
  }

  /** Elsewhere in the snapshot a send changes nothing. */
  lemma OtherStream(s: State, s': State, k: nat)
    requires k < |s.list| && s.list[k] in s.subs && StreamOk(s, k)
    requires s'.list == s.list && s'.batches == s.batches && s.list[k] in s'.subs
    requires s'.subs[s.list[k]] == s.subs[s.list[k]]
    requires s.pc.Fan? && s'.pc.Bump? && s'.pc.batch == s.pc.batch && s'.pc.snapshot == s.pc.snapshot
    requires s'.pc.i == s.pc.i && k != s.pc.i
    ensures StreamOk(s', k)
  {
    assert Owed(s', k) == Owed(s, k);
  }

  lemma SentStreams(s: State, s': State)
    requires Structure(s) && Streams(s) && (SendFull(s, s') || SendAccepted(s, s'))
    ensures Streams(s')
  {
    SentStream(s, s');
    forall k | 0 <= k < |s'.list| && k != s.pc.i ensures s'.list[k] in s'.subs && StreamOk(s', k) {
      assert StreamOk(s, k);
      assert s.list[k] != s.list[s.pc.i];
      OtherStream(s, s', k);
    }
  }

  lemma BumpStructure(s: State, s': State)
    requires Structure(s) && BumpCounter(s, s')
    ensures Structure(s')
  {
    TouchStructure(s, s', s.pc.snapshot[s.pc.i]);
  }

  lemma BumpCounters(s: State, s': State)
    requires Structure(s) && Counters(s) && BumpCounter(s, s')
    ensures Counters(s')
  {
    forall u | u in s'.subs ensures CountersOk(s', u) {
      assert CountersOk(s, u);
    }
  }

  lemma BumpStreams(s: State, s': State)
    requires Structure(s) && Streams(s) && BumpCounter(s, s')
    ensures Streams(s')
  {
    forall k | 0 <= k < |s'.list| ensures s'.list[k] in s'.subs && StreamOk(s', k) {
      assert StreamOk(s, k);
      assert Min(Progress(s'.pc, k), |s.pc.batch|) == Min(Progress(s.pc, k), |s.pc.batch|);
      assert Owed(s', k) == Owed(s, k);
    }
  }

  lemma PushDeadStructure(s: State, s': State)
    requires Structure(s) && PushDead(s, s')
    ensures Structure(s')
  {
    assert AddressesOk(s') by {
      FewerOwned(s, s');
    }
  }

  lemma PushDeadStreams(s: State, s': State)
    requires Structure(s) && Streams(s) && PushDead(s, s')
    ensures Streams(s')
  {
    forall k | 0 <= k < |s'.list| ensures s'.list[k] in s'.subs && StreamOk(s', k) {
      assert StreamOk(s, k);
      if k != s.pc.i {
        assert Owed(s', k) == Owed(s, k);
      }
    }
  }

  lemma ReleaseStreams(s: State, s': State)
    requires Structure(s) && Streams(s) && Release(s, s')
    ensures Streams(s')
  {
    var n := |s.batches|;
    forall k | 0 <= k < |s'.list| ensures s'.list[k] in s'.subs && StreamOk(s', k) {
      assert StreamOk(s, k);
      match s.subs[s.list[k]].since
      case None =>
      case Some(b) =>
        assert s.batches[b..][..n - 1 - b] == s.batches[b..n - 1];
        assert s.pc.batch[..|s.pc.batch|] == s.pc.batch;
        assert Owed(s', k) == Owed(s, k);
    }
  }

  lemma {:induction false} KeptStaysDistinct(subs: map<Sid, Sub>, list: seq<Sid>, dead: seq<Addr>)
    requires Distinct(list)
    ensures Distinct(Kept(subs, list, dead))
  {
    if list != [] {
      KeptStaysDistinct(subs, list[..|list| - 1], dead);
    }
  }

  /** An address is noted exactly when its owner in the list was found disconnected. */
  lemma NotedIffFound(s: State, t: Sid)
    requires Structure(s) && s.pc.Retain? && t in s.list
    ensures t in s.subs && (s.subs[t].addr in s.pc.dead <==> t in s.found)
    ensures t in s.found ==> !s.subs[t].rxAlive
  {
    if s.subs[t].addr in s.pc.dead {
      var k :| 0 <= k < |s.pc.dead| && s.pc.dead[k] == s.subs[t].addr;
      assert Owned(s, s.found[k]) && Owned(s, t);
    }
    if t in s.found {
      var k :| 0 <= k < |s.found| && s.found[k] == t;
      assert s.pc.dead[k] == s.subs[t].addr;
    }
  }

  /** Culling by address removes exactly the subscribers found disconnected: it cannot hit another. */
  lemma OnlyFoundRemoved(s: State, s': State)
    requires Structure(s) && RetainLive(s, s')
    ensures forall t :: t in s'.list <==> t in s.list && t !in s.found
    ensures forall t :: t in s.list && t !in s'.list ==> t in s.subs && !s.subs[t].rxAlive
  {
    forall t
      ensures t in s'.list <==> t in s.list && t !in s.found
      ensures t in s.list && t !in s'.list ==> t in s.subs && !s.subs[t].rxAlive
    {
      if t in s.list {
        NotedIffFound(s, t);
      }
    }
  }

  lemma RetainStructure(s: State, s': State)
    requires Structure(s) && RetainLive(s, s')
    ensures Structure(s')
  {
    OnlyFoundRemoved(s, s');
    KeptStaysDistinct(s.subs, s.list, s.pc.dead);
    forall k | 0 <= k < |s'.list|
      ensures s'.list[k] in s'.subs && s'.subs[s'.list[k]].pushed
    {
      assert s'.list[k] in s'.list;
    }
    assert ListOk(s');
    assert LiveOk(s');
    assert AddressesOk(s') by {
      FewerOwned(s, s');
    }
  }

  lemma RetainStreams(s: State, s': State)
    requires Structure(s) && Streams(s) && RetainLive(s, s')
    ensures Streams(s')
  {
    forall k | 0 <= k < |s'.list| ensures s'.list[k] in s'.subs && StreamOk(s', k) {
      assert s'.list[k] in s'.list;
      var l :| 0 <= l < |s.list| && s.list[l] == s'.list[k];
      assert StreamOk(s, l) && Owed(s', k) == Owed(s, l);
    }
  }

  lemma ReaderKeeps(s: State, s': State)
    requires Inv(s) && ReaderStep(s, s')
    ensures Inv(s')
  {
    if TakeSnapshot(s, s') {
      TakeSnapshotStructure(s, s'); TakeSnapshotCounters(s, s'); TakeSnapshotStreams(s, s');
    } else if TrySend(s, s') {
      if SendDisconnected(s, s') {
        DisconnectedKeeps(s, s');
      } else {
        SentStructure(s, s'); SentCounters(s, s'); SentStreams(s, s');
      }
    } else if BumpCounter(s, s') {
      BumpStructure(s, s'); BumpCounters(s, s'); BumpStreams(s, s');
    } else if PushDead(s, s') {
      PushDeadStructure(s, s'); QuietCounters(s, s'); PushDeadStreams(s, s');
    } else if Release(s, s') {
      ReleaseStructure(s, s'); QuietCounters(s, s'); ReleaseStreams(s, s');
    } else if RetainLive(s, s') {
      RetainStructure(s, s'); QuietCounters(s, s'); RetainStreams(s, s');
    } else {
      QuietKeeps(s, s');
    }
  }

  lemma ReleaseStructure(s: State, s': State)
    requires Structure(s) && Release(s, s')
    ensures Structure(s')
  {
    assert AddressesOk(s') by {
      FewerOwned(s, s');
    }
  }

  lemma ClientStepKeeps(s: State, s': State, t: Sid)
    requires Inv(s) && ClientStep(s, s', t)
    ensures Inv(s')
  {
    if addr, capacity :| Allocate(s, s', t, addr, capacity) {
      AllocateKeeps(s, s', t, addr, capacity);
    } else if Push(s, s', t) {
      PushKeeps(s, s', t);
    } else {
      LetGoKeeps(s, s', t);
    }
  }

  lemma NextKeeps(s: State, s': State)
    requires Inv(s) && Next(s, s')
    ensures Inv(s')
  {
    if ReaderStep(s, s') {
      ReaderKeeps(s, s');
    } else {
      var t :| ClientStep(s, s', t);
      ClientStepKeeps(s, s', t);
    }
  }

  // ---------------------------------------------------------------- every run

  ghost predicate Run(run: seq<State>) {
    && run != [] && Init(run[0])
    && forall i, j {:trigger Next(run[i], run[j])} :: 0 <= i < j < |run| && j == i + 1 ==> Next(run[i], run[j])
  }

  lemma {:induction false} RunInv(run: seq<State>, i: nat)
    requires Run(run) && i < |run|
    ensures Inv(run[i])
  {
    if i > 0 {
      RunInv(run, i - 1);
      assert Next(run[i - 1], run[i - 1 + 1]);
      NextKeeps(run[i - 1], run[i]);
    }
  }

  ghost predicate Reachable(s: State) {
    exists run: seq<State> :: Run(run) && run[|run| - 1] == s
  }

  lemma ReachableInv(s: State)
    requires Reachable(s)
    ensures Inv(s)
  {
    var run: seq<State> :| Run(run) && run[|run| - 1] == s;
    RunInv(run, |run| - 1);
  }

  /** A live subscriber is in the list at exactly one position. */
  lemma LiveIsListed(s: State, t: Sid) returns (k: nat)
    requires Reachable(s) && t in s.subs && s.subs[t].rxAlive && s.subs[t].pushed
    ensures k < |s.list| && s.list[k] == t
    ensures forall l :: 0 <= l < |s.list| && s.list[l] == t ==> l == k
  {
    ReachableInv(s);
    k :| 0 <= k < |s.list| && s.list[k] == t;
  }

  /** Nothing lost, repeated or reordered: an unbounded live subscriber has taken or still queues
      every batch from its first snapshot on, and the part of the batch in progress that reached it. */
  lemma UnboundedHasAll(s: State, k: nat)
    requires Reachable(s) && k < |s.list|
    ensures s.list[k] in s.subs
    ensures var u := s.subs[s.list[k]];
            u.rxAlive && u.capacity.None? ==> u.consumed + u.queue == Owed(s, k) && u.dropped == 0
  {
    ReachableInv(s);
    assert StreamOk(s, k) && CountersOk(s, s.list[k]);
  }

  /** Between fan-outs that is every batch since its first snapshot, whole. */
  lemma SettledHasAll(s: State, k: nat)
    requires Reachable(s) && !s.pc.Fanning() && k < |s.list|
    ensures s.list[k] in s.subs && Settled(s, k)
  {
    UnboundedHasAll(s, k);
    ReachableInv(s);
    assert StreamOk(s, k);
  }

  ghost predicate Settled(s: State, k: nat)
    requires k < |s.list| && s.list[k] in s.subs
  {
    var u := s.subs[s.list[k]];
    u.rxAlive && u.capacity.None? && u.since.Some? ==>
      u.since.value <= |s.batches| && u.consumed + u.queue == Flat(s.batches[u.since.value..]) && u.dropped == 0
  }

  /** Bounded or not, what was tried is exactly what is owed; what was taken or queued is its accepted
      part, and the queue keeps its bound. */
  lemma BoundedHasAccepted(s: State, k: nat)
    requires Reachable(s) && k < |s.list|
    ensures s.list[k] in s.subs
    ensures var u := s.subs[s.list[k]];
            u.rxAlive ==>
              && Tried(u.attempts) == Owed(s, k)
              && u.consumed + u.queue == Accepted(u.attempts)
              && (u.capacity.Some? ==> |u.queue| <= u.capacity.value)
  {
    ReachableInv(s);
    assert StreamOk(s, k) && CountersOk(s, s.list[k]);
  }

  /** The counters, at every instant: they lag the queue only between a send and its count. */
  lemma Conservation(s: State, t: Sid)
    requires Reachable(s) && t in s.subs && s.subs[t].rxAlive
    ensures var u := s.subs[t];
            && |u.consumed| + |u.queue| == u.received + One(Uncounted(s, t, true))
            && |u.attempts| == u.received + u.dropped + One(Uncounted(s, t, true)) + One(Uncounted(s, t, false))
  {
    ReachableInv(s);
    assert CountersOk(s, t);
    var u := s.subs[t];
    assert |u.consumed + u.queue| == |u.consumed| + |u.queue|;
  }

  /** Culling is sound: retain removes exactly those found disconnected, none of them live.  That they
      are all who should be is FanOutCulling.GoneBeforeItsTurn. */
  lemma CullingExact(s: State, s': State)
    requires Reachable(s) && RetainLive(s, s')
    ensures forall t :: t in s'.list <==> t in s.list && t !in s.found
    ensures forall t :: t in s.subs && s.subs[t].rxAlive && s.subs[t].pushed ==> t in s'.list
  {
    ReachableInv(s);
    OnlyFoundRemoved(s, s');
  }

  /** While addresses are noted a new subscriber cannot get one of them, even once the snapshot is
      released and its owners are dropped by their clients. */
  lemma FreshIsNotNoted(s: State, s': State, t: Sid, addr: Addr, capacity: Option<nat>)
    requires Reachable(s) && (s.pc.Fanning() || s.pc.Retain?) && Allocate(s, s', t, addr, capacity)
    ensures addr !in Dead(s.pc)
  {
    ReachableInv(s);
    forall k | 0 <= k < |Dead(s.pc)|
      ensures Dead(s.pc)[k] != addr
    {
      assert Owned(s, s.found[k]);
    }
  }

  /** After stop is set at most one more batch begins its fan-out, and a stopped reader has fanned
      out every batch it began whole. */
  lemma StopIsClean(s: State, k: nat)
    requires Reachable(s) && k < |s.list|
    ensures s.lateBatches <= 1
    ensures s.list[k] in s.subs
    ensures s.pc.Stopped? && s.subs[s.list[k]].rxAlive && s.subs[s.list[k]].since.Some? ==>
              var b := s.subs[s.list[k]].since.value;
              b <= |s.batches| && Tried(s.subs[s.list[k]].attempts) == Flat(s.batches[b..])
  {
    ReachableInv(s);
    assert StreamOk(s, k);
  }
}
