/** A subscriber's frames and counters depend on its own events only (mcanbus/src/reader.rs:257-286). */
module FanOutIsolation {
  import opened Frames
  import opened FanOut

  /** What one subscriber can observe of itself. */
  datatype View = View(queue: seq<Frame>, consumed: seq<Frame>, received: nat, dropped: nat,
                       tried: nat, uncounted: Option<bool>)

  function Step(capacity: Option<nat>, frames: seq<Frame>, v: View, e: Local): View {
    match e
    case Try =>
      if v.tried >= |frames| then v
      else if capacity.Some? && |v.queue| >= capacity.value then v.(tried := v.tried + 1, uncounted := Some(false))
      else v.(queue := v.queue + [frames[v.tried]], tried := v.tried + 1, uncounted := Some(true))
    case Count =>
      var w := v.(uncounted := None);
      if v.uncounted == Some(true) then w.(received := v.received + 1)
      else if v.uncounted == Some(false) then w.(dropped := v.dropped + 1)
      else w
    case Take =>
      if v.queue == [] then v else v.(queue := v.queue[1..], consumed := v.consumed + [v.queue[0]])
  }

  /** A subscriber replayed alone, from its capacity, the frames sent its way and its own events. */
  function Replay(capacity: Option<nat>, frames: seq<Frame>, log: seq<Local>): View {
    if log == [] then View([], [], 0, 0, 0, None)
    else Step(capacity, frames, Replay(capacity, frames, log[..|log| - 1]), log[|log| - 1])
  }

  function Tries(log: seq<Local>): nat {
    if log == [] then 0 else Tries(log[..|log| - 1]) + One(log[|log| - 1].Try?)
  }

  function ViewOf(s: State, t: Sid): View
    requires t in s.subs
  {
    var u := s.subs[t];
    View(u.queue, u.consumed, u.received, u.dropped, |u.attempts|,
         if Uncounted(s, t, true) then Some(true) else if Uncounted(s, t, false) then Some(false) else None)
  }

  ghost predicate ReplayOk(s: State, t: Sid)
    requires t in s.subs
  {
    var u := s.subs[t];
    u.rxAlive ==> Tries(u.log) == |u.attempts| && Replay(u.capacity, Tried(u.attempts), u.log) == ViewOf(s, t)
  }

  ghost predicate AllReplay(s: State) {
    forall t :: t in s.subs ==> ReplayOk(s, t)
  }

  /** Frames not yet tried do not matter. */
  lemma {:induction false} ReplayPrefix(capacity: Option<nat>, frames: seq<Frame>, more: seq<Frame>, log: seq<Local>)
    requires Tries(log) <= |frames|
    ensures Replay(capacity, frames + more, log) == Replay(capacity, frames, log)
    ensures Replay(capacity, frames, log).tried == Tries(log)
  {
    if log != [] {
      ReplayPrefix(capacity, frames, more, log[..|log| - 1]);
    }
  }

  lemma ReplaySnoc(capacity: Option<nat>, frames: seq<Frame>, log: seq<Local>, e: Local)
    ensures Replay(capacity, frames, log + [e]) == Step(capacity, frames, Replay(capacity, frames, log), e)
    ensures Tries(log + [e]) == Tries(log) + One(e.Try?)
  {
    assert (log + [e])[..|log|] == log;
  }

  /** Subscribers a step leaves alone, or only loses track of. */
  predicate SameSub(u: Sub, u': Sub) {
    u'.rxAlive ==> u.rxAlive && u'.capacity == u.capacity && u'.queue == u.queue && u'.consumed == u.consumed
                   && u'.received == u.received && u'.dropped == u.dropped
                   && u'.attempts == u.attempts && u'.log == u.log
  }

  lemma OthersReplay(s: State, s': State, t: Sid)
    requires Structure(s) && AllReplay(s)
    requires forall u :: u in s'.subs && u != t ==> u in s.subs && SameSub(s.subs[u], s'.subs[u])
    requires forall u, accepted :: u in s'.subs && u != t ==>
               (Uncounted(s', u, accepted) <==> Uncounted(s, u, accepted))
    ensures forall u :: u in s'.subs && u != t ==> ReplayOk(s', u)
  {
    forall u | u in s'.subs && u != t
      ensures ReplayOk(s', u)
    {
      assert ReplayOk(s, u) && SameSub(s.subs[u], s'.subs[u]);
      assert Uncounted(s', u, true) <==> Uncounted(s, u, true);
      assert Uncounted(s', u, false) <==> Uncounted(s, u, false);
    }
  }

  lemma ConsumeReplay(s: State, s': State, t: Sid)
    requires Structure(s) && AllReplay(s) && Consume(s, s', t)
    ensures AllReplay(s')
  {
    OthersReplay(s, s', t);
    var u := s.subs[t];
    assert ReplayOk(s, t);
    ReplaySnoc(u.capacity, Tried(u.attempts), u.log, Take);
    assert Uncounted(s', t, true) <==> Uncounted(s, t, true);
    assert Uncounted(s', t, false) <==> Uncounted(s, t, false);
  }

  lemma SentReplay(s: State, s': State)
    requires Structure(s) && AllReplay(s) && (SendFull(s, s') || SendAccepted(s, s'))
    ensures AllReplay(s')
  {
    var t, frame := s.pc.snapshot[s.pc.i], s.pc.batch[s.pc.j];
    OthersReplay(s, s', t);
    var u := s.subs[t];
    assert ReplayOk(s, t);
    AcceptedSnoc(u.attempts, Attempt(frame, s'.pc.accepted));
    ReplayPrefix(u.capacity, Tried(u.attempts), [frame], u.log);
    ReplaySnoc(u.capacity, Tried(u.attempts) + [frame], u.log, Try);
  }

  lemma BumpReplay(s: State, s': State)
    requires Structure(s) && AllReplay(s) && BumpCounter(s, s')
    ensures AllReplay(s')
  {
    var t := s.pc.snapshot[s.pc.i];
    OthersReplay(s, s', t);
    var u := s.subs[t];
    assert ReplayOk(s, t);
    ReplaySnoc(u.capacity, Tried(u.attempts), u.log, Count);
  }

  lemma AllocateReplay(s: State, s': State, t: Sid, addr: Addr, capacity: Option<nat>)
    requires Structure(s) && AllReplay(s) && Allocate(s, s', t, addr, capacity)
    ensures AllReplay(s')
  {
    OthersReplay(s, s', t);
    assert !Uncounted(s', t, true) && !Uncounted(s', t, false);
  }

  /** A step that touches no live subscriber's frames, counters or events. */
  ghost predicate Unseen(s: State, s': State) {
    && s'.subs.Keys == s.subs.Keys
    && (forall u :: u in s.subs ==> SameSub(s.subs[u], s'.subs[u]))
    && (s'.pc == s.pc || (!s.pc.Bump? && !s'.pc.Bump?))
  }

  lemma UnseenReplay(s: State, s': State)
    requires AllReplay(s) && Unseen(s, s')
    ensures AllReplay(s')
  {
    forall u | u in s'.subs
      ensures ReplayOk(s', u)
    {
      assert ReplayOk(s, u) && SameSub(s.subs[u], s'.subs[u]);
    }
  }

  lemma ClientReplay(s: State, s': State, t: Sid)
    requires Structure(s) && AllReplay(s) && ClientStep(s, s', t)
    ensures AllReplay(s')
  {
    if addr, capacity :| Allocate(s, s', t, addr, capacity) {
      AllocateReplay(s, s', t, addr, capacity);
    } else if Consume(s, s', t) {
      ConsumeReplay(s, s', t);
    } else {
      UnseenReplay(s, s');
    }
  }

  lemma QuietReplay(s: State, s': State)
    requires AllReplay(s) && s'.subs == s.subs && !s.pc.Bump? && !s'.pc.Bump?
    ensures AllReplay(s')
  {
    UnseenReplay(s, s');
  }

  lemma SnapshotReplay(s: State, s': State)
    requires AllReplay(s) && TakeSnapshot(s, s')
    ensures AllReplay(s')
  {
    UnseenReplay(s, s');
  }

  lemma ReaderReplay(s: State, s': State)
    requires Structure(s) && AllReplay(s) && ReaderStep(s, s')
    ensures AllReplay(s')
  {
    if SendFull(s, s') || SendAccepted(s, s') {
      SentReplay(s, s');
    } else if BumpCounter(s, s') {
      BumpReplay(s, s');
    } else if TakeSnapshot(s, s') {
      SnapshotReplay(s, s');
    } else {
      QuietReplay(s, s');
    }
  }

  lemma {:induction false} RunReplays(run: seq<State>, i: nat)
    requires Run(run) && i < |run|
    ensures AllReplay(run[i])
  {
    if i > 0 {
      RunReplays(run, i - 1);
      RunInv(run, i - 1);
      assert Next(run[i - 1], run[i - 1 + 1]);
      if ReaderStep(run[i - 1], run[i]) {
        ReaderReplay(run[i - 1], run[i]);
      } else {
        var t :| ClientStep(run[i - 1], run[i], t);
        ClientReplay(run[i - 1], run[i], t);
      }
    }
  }

  lemma ReachableReplays(s: State)
    requires Reachable(s)
    ensures AllReplay(s)
  {
    var run: seq<State> :| Run(run) && run[|run| - 1] == s;
    RunReplays(run, |run| - 1);
  }

  /** All frames of the batches from a subscriber's first snapshot on. */
  function Stream(s: State, k: nat): seq<Frame>
    requires k < |s.list| && s.list[k] in s.subs
  {
    match s.subs[s.list[k]].since
    case Some(b) => if b <= |s.batches| then Flat(s.batches[b..]) else []
    case None => []
  }

  lemma FlatSnoc(batches: seq<seq<Frame>>, b: nat)
    requires b < |batches|
    ensures Flat(batches[b..]) == Flat(batches[b..|batches| - 1]) + batches[|batches| - 1]
  {
    assert batches[b..][..|batches| - 1 - b] == batches[b..|batches| - 1];
  }

  lemma OwedPrefix(s: State, k: nat)
    requires k < |s.list| && s.list[k] in s.subs && StreamOk(s, k) && PcOk(s)
    ensures Owed(s, k) <= Stream(s, k)
  {
    if s.subs[s.list[k]].since.Some? && s.pc.Fanning() {
      FlatSnoc(s.batches, s.subs[s.list[k]].since.value);
    }
  }

  lemma OwedFromStream(s: State, k: nat)
    requires Reachable(s) && k < |s.list|
    ensures s.list[k] in s.subs && Owed(s, k) <= Stream(s, k)
  {
    ReachableInv(s);
    OwedPrefix(s, k);
  }

  /** Two runs, two subscribers of equal capacity whose batch streams agree as far as both go and
      whose own sends, counts and receives came in the same order: they have received the same frames
      and show the same counters, whatever any other subscriber did in either run. */
  lemma Isolation(s: State, k: nat, s': State, k': nat)
    requires Reachable(s) && k < |s.list| && s.list[k] in s.subs
    requires Reachable(s') && k' < |s'.list| && s'.list[k'] in s'.subs
    requires var (u, u') := (s.subs[s.list[k]], s'.subs[s'.list[k']]);
             u.rxAlive && u'.rxAlive && u.capacity == u'.capacity && u.log == u'.log
    requires Stream(s, k) <= Stream(s', k')
    ensures ViewOf(s, s.list[k]) == ViewOf(s', s'.list[k'])
  {
    var t, t' := s.list[k], s'.list[k'];
    ReachableReplays(s);
    ReachableReplays(s');
    assert ReplayOk(s, t) && ReplayOk(s', t');
    OwedFromStream(s, k);
    OwedFromStream(s', k');
    BoundedHasAccepted(s, k);
    BoundedHasAccepted(s', k');
    assert Tried(s.subs[t].attempts) == Tried(s'.subs[t'].attempts);
  }
}
