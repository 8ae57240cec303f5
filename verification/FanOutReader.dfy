/** The reader thread's own loops (mcanbus/src/reader.rs:235-288), against the machine of FanOut.

  Clients act between any two of the reader's steps, as a schedule dictates.  Every execution is a
  run of the machine, so all that is proved of its runs holds of the loops.
 */
module FanOutReader {
  import opened Ids
  import opened Frames
  import opened Sockets
  import opened FanOut

  datatype Action =
    | Open(t: Sid, addr: Addr, capacity: Option<nat>)
    | Register(t: Sid)
    | TakeFrame(t: Sid)
    | CloseReceiver(t: Sid)
    | ReleaseHandle(t: Sid)
    | Halt

  datatype TryResult = Accepted | Full | Disconnected

  lemma RunGrows(run: seq<State>, s': State)
    requires Run(run) && Next(run[|run| - 1], s')
    ensures Run(run + [s'])
  {
  }

  /** The batches a sequence of kernel answers makes: the data frames of each, if any. */
  function BatchesOf(decode: Message -> Option<Frame>, answers: seq<KernelAnswer>): seq<seq<Frame>> {
    if answers == [] then []
    else BatchesOf(decode, answers[..|answers| - 1]) + BatchOf(decode, answers[|answers| - 1])
  }

  function BatchOf(decode: Message -> Option<Frame>, answer: KernelAnswer): seq<seq<Frame>> {
    var frames := FramesOf(decode, answer);
    if frames == [] then [] else [frames]
  }

  function MessagesIn(answer: KernelAnswer): seq<Message> {
    if answer.Messages? then answer.msgs else []
  }

  function FramesOf(decode: Message -> Option<Frame>, answer: KernelAnswer): seq<Frame> {
    DataFrames(decode, MessagesIn(answer))
  }

  lemma BatchesNext(decode: Message -> Option<Frame>, answers: seq<KernelAnswer>, k: nat, before: seq<seq<Frame>>)
    requires k < |answers|
    ensures before + BatchesOf(decode, answers[..k]) + BatchOf(decode, answers[k])
         == before + BatchesOf(decode, answers[..k + 1])
  {
    assert answers[..k + 1][..k] == answers[..k];
  }

  /** All messages of the answers, in order. */
  function MessagesOf(answers: seq<KernelAnswer>): seq<Message> {
    if answers == [] then []
    else MessagesOf(answers[..|answers| - 1]) + MessagesIn(answers[|answers| - 1])
  }

  lemma FlatAppend(batches: seq<seq<Frame>>, frames: seq<Frame>)
    ensures Flat(batches + if frames == [] then [] else [frames]) == Flat(batches) + frames
  {
    if frames == [] {
      assert batches + [] == batches;
    } else {
      assert (batches + [frames])[..|batches|] == batches;
    }
  }

  /** The batches hold the data frames of everything received: none lost, added or moved; none of the
      batches is empty. */
  lemma {:induction false} BatchesHoldAll(decode: Message -> Option<Frame>, answers: seq<KernelAnswer>)
    ensures Flat(BatchesOf(decode, answers)) == DataFrames(decode, MessagesOf(answers))
    ensures forall b :: b in BatchesOf(decode, answers) ==> b != []
  {
    if answers != [] {
      var n := |answers| - 1;
      BatchesHoldAll(decode, answers[..n]);
      DataFramesAppend(decode, MessagesOf(answers[..n]), MessagesIn(answers[n]));
      FlatAppend(BatchesOf(decode, answers[..n]), FramesOf(decode, answers[n]));
    }
  }

  function AfterTry(batch: seq<Frame>, snapshot: seq<Sid>, i: nat, j: nat, dead: seq<Addr>, r: TryResult): Pc {
    match r
    case Accepted => Bump(batch, snapshot, i, j, dead, true)
    case Full => Bump(batch, snapshot, i, j, dead, false)
    case Disconnected => NoteDead(batch, snapshot, i, dead)
  }

  // ---------------------------------------------------------------- client actions

  predicate Enabled(s: State, a: Action) {
    match a
    case Open(t, addr, capacity) =>
      t !in s.subs && (capacity.Some? ==> capacity.value >= 1)
      && forall u :: u in s.subs && Owned(s, u) ==> s.subs[u].addr != addr
    case Register(t) => t in s.subs && !s.subs[t].pushed
    case TakeFrame(t) => t in s.subs && s.subs[t].rxAlive && s.subs[t].queue != []
    case CloseReceiver(t) => t in s.subs && s.subs[t].pushed && s.subs[t].rxAlive
    case ReleaseHandle(t) => t in s.subs && !s.subs[t].rxAlive && s.subs[t].handle
    case Halt => true
  }

  ghost predicate Acts(s: State, s': State, a: Action) {
    match a
    case Open(t, addr, capacity) => Allocate(s, s', t, addr, capacity)
    case Register(t) => Push(s, s', t)
    case TakeFrame(t) => Consume(s, s', t)
    case CloseReceiver(t) => DropReceiver(s, s', t)
    case ReleaseHandle(t) => DropHandle(s, s', t)
    case Halt => SetStop(s, s')
  }

  /** The state after an action, the same one if the action cannot happen. */
  function Acted(s: State, a: Action): State {
    if !Enabled(s, a) then s
    else
      match a
      case Open(t, addr, capacity) =>
        s.(subs := s.subs[t := Sub(addr, capacity, false, true, true, [], 0, 0, [], [], [], None)])
      case Register(t) => s.(subs := s.subs[t := s.subs[t].(pushed := true)], list := s.list + [t])
      case TakeFrame(t) =>
        var u := s.subs[t];
        s.(subs := s.subs[t := u.(queue := u.queue[1..], consumed := u.consumed + [u.queue[0]], log := u.log + [Take])])
      case CloseReceiver(t) => s.(subs := s.subs[t := s.subs[t].(rxAlive := false, queue := [])])
      case ReleaseHandle(t) => s.(subs := s.subs[t := s.subs[t].(handle := false)])
      case Halt => s.(stop := true)
  }

  function AllActed(s: State, actions: seq<Action>): State {
    if actions == [] then s else Acted(AllActed(s, actions[..|actions| - 1]), actions[|actions| - 1])
  }

  /** Actions take effect one after another. */
  lemma {:induction false} ActedInOrder(s: State, first: seq<Action>, later: seq<Action>)
    ensures AllActed(s, first + later) == AllActed(AllActed(s, first), later)
    ensures |first| == 1 ==> AllActed(s, first) == Acted(s, first[0])
  {
    if later == [] {
      assert first + later == first;
    } else {
      assert (first + later)[..|first + later| - 1] == first + later[..|later| - 1];
      ActedInOrder(s, first, later[..|later| - 1]);
    }
    assert |first| == 1 ==> first[..0] == [];
  }

  /** An action that can happen is the machine's step of its kind... */
  lemma ActedIsStep(s: State, a: Action)
    requires Enabled(s, a)
    ensures Acts(s, Acted(s, a), a) && Next(s, Acted(s, a))
  {
    var s' := Acted(s, a);
    match a
    case Open(t, addr, capacity) => assert Allocate(s, s', t, addr, capacity) && ClientStep(s, s', t);
    case Register(t) => assert ClientStep(s, s', t);
    case TakeFrame(t) => assert ClientStep(s, s', t);
    case CloseReceiver(t) => assert ClientStep(s, s', t);
    case ReleaseHandle(t) => assert ClientStep(s, s', t);
    case Halt => assert ClientStep(s, s', 0);
  }

  /** ...one that cannot is none of its steps; so schedules leave out no client step. */
  lemma EveryClientStepActs(s: State, s': State, a: Action)
    ensures Acts(s, s', a) <==> Enabled(s, a) && s' == Acted(s, a)
  {
    if Enabled(s, a) {
      ActedIsStep(s, a);
    }
  }

  lemma ClientStepIsAction(s: State, s': State, t: Sid) returns (a: Action)
    requires ClientStep(s, s', t)
    ensures Enabled(s, a) && s' == Acted(s, a)
  {
    if addr, capacity :| Allocate(s, s', t, addr, capacity) {
      a := Open(t, addr, capacity);
    } else if Push(s, s', t) {
      a := Register(t);
    } else if Consume(s, s', t) {
      a := TakeFrame(t);
    } else if DropReceiver(s, s', t) {
      a := CloseReceiver(t);
    } else if DropHandle(s, s', t) {
      a := ReleaseHandle(t);
    } else {
      a := Halt;
    }
    EveryClientStepActs(s, s', a);
  }

  /** An answer a batch receive with room for `room` messages can get. */
  predicate Fits(decode: Message -> Option<Frame>, answer: KernelAnswer, room: nat) {
    answer.Messages? ==> |answer.msgs| <= Min(room, MAX_BATCH) && DropsShort(decode, answer.msgs)
  }

  predicate AllFit(decode: Message -> Option<Frame>, answers: seq<KernelAnswer>, room: nat) {
    answers == [] || (Fits(decode, answers[|answers| - 1], room) && AllFit(decode, answers[..|answers| - 1], room))
  }

  lemma {:induction false} FitsAt(decode: Message -> Option<Frame>, answers: seq<KernelAnswer>, room: nat, k: nat)
    requires AllFit(decode, answers, room) && k < |answers|
    ensures Fits(decode, answers[k], room)
  {
    if k < |answers| - 1 {
      FitsAt(decode, answers[..|answers| - 1], room, k);
    }
  }

  class Reader {
    var subs: map<Sid, Sub>
    var list: seq<Sid>
    var stop: bool
    var pc: Pc
    var batches: seq<seq<Frame>>
    var lateBatches: nat
    var found: seq<Sid>
    const schedule: seq<seq<Action>> // what clients do at each pause of the reader
    var pauses: nat
    ghost var trace: seq<State>

    function St(): State
      reads this
    {
      State(subs, list, stop, pc, batches, lateBatches, found)
    }

    /** The execution so far is a run of the machine. */
    ghost predicate Valid()
      reads this
    {
      Run(trace) && trace[|trace| - 1] == St()
    }

    constructor (schedule: seq<seq<Action>>)
      ensures Valid() && pc == CheckStop && batches == [] && !stop && this.schedule == schedule
    {
      subs, list, stop, pc, batches, lateBatches, found := map[], [], false, CheckStop, [], 0, [];
      this.schedule, pauses := schedule, 0;
      trace := [State(map[], [], false, CheckStop, [], 0, [])];
    }

    ghost method Record()
      requires Run(trace) && Next(trace[|trace| - 1], St())
      modifies this`trace
      ensures Valid() && trace == old(trace) + [St()]
    {
      RunGrows(trace, St());
      trace := trace + [St()];
    }

    /** So everything FanOut proves of reachable states holds of this one. */
    lemma ValidIsReachable()
      requires Valid()
      ensures Reachable(St())
    {
    }

    /** Every live unbounded subscriber has every batch since its first snapshot. */
    ghost predicate AllDelivered()
      reads this
    {
      forall k :: 0 <= k < |list| ==> list[k] in subs && Settled(St(), k)
    }

    lemma Delivered()
      requires Valid() && !pc.Fanning()
      ensures AllDelivered()
    {
      forall k | 0 <= k < |list|
        ensures list[k] in subs && Settled(St(), k)
      {
        SettledHasAll(St(), k);
      }
    }

    // ---------------------------------------------------------------- clients

    /** One client action, if it can happen now. */
    method Act(a: Action)
      requires Valid()
      modifies this`subs, this`list, this`stop, this`trace
      ensures Valid() && old(trace) <= trace
      ensures St() == Acted(old(St()), a)
      ensures if Enabled(old(St()), a) then Acts(old(St()), St(), a) else St() == old(St())
    {
      if !Enabled(St(), a) {
        return;
      }
      match a {
        case Open(t, addr, capacity) =>
          subs := subs[t := Sub(addr, capacity, false, true, true, [], 0, 0, [], [], [], None)];
        case Register(t) =>
          subs, list := subs[t := subs[t].(pushed := true)], list + [t];
        case TakeFrame(t) =>
          var u := subs[t];
          subs := subs[t := u.(queue := u.queue[1..], consumed := u.consumed + [u.queue[0]], log := u.log + [Take])];
        case CloseReceiver(t) =>
          subs := subs[t := subs[t].(rxAlive := false, queue := [])];
        case ReleaseHandle(t) =>
          subs := subs[t := subs[t].(handle := false)];
        case Halt =>
          stop := true;
      }
      ActedIsStep(old(St()), a);
      Record();
    }

    function ActionsAt(n: nat): seq<Action> {
      if n < |schedule| then schedule[n] else []
    }

    /** Whatever the schedule has clients do here, in its order. */
    method Pause()
      requires Valid()
      modifies this`subs, this`list, this`stop, this`pauses, this`trace
      ensures Valid() && old(trace) <= trace
      ensures old(stop) ==> stop
      ensures pauses == old(pauses) + 1 && St() == AllActed(old(St()), ActionsAt(old(pauses)))
    {
      var actions := ActionsAt(pauses);
      pauses := pauses + 1;
      for i := 0 to |actions|
        invariant Valid() && old(trace) <= trace
        invariant old(stop) ==> stop
        invariant pauses == old(pauses) + 1 && St() == AllActed(old(St()), actions[..i])
      {
        assert actions[..i + 1][..i] == actions[..i];
        Act(actions[i]);
      }
      assert actions[..|actions|] == actions;
    }

    // ---------------------------------------------------------------- the reader's steps

    method LoadStop() returns (stopped: bool)
      requires Valid() && pc.CheckStop?
      modifies this`pc, this`trace
      ensures Valid() && old(trace) <= trace
      ensures stopped == stop && pc == if stop then Stopped else Receive
    {
      pc, stopped := if stop then Stopped else Receive, stop;
      assert LoopHead(old(St()), St());
      Record();
    }

    method KeepWaiting()
      requires Valid() && pc.Receive?
      modifies this`pc, this`trace
      ensures Valid() && old(trace) <= trace && pc == CheckStop
    {
      pc := CheckStop;
      assert ReceiveNothing(old(St()), St());
      Record();
    }

    method Deliver(batch: seq<Frame>)
      requires Valid() && pc.Receive? && batch != []
      modifies this`pc, this`trace
      ensures Valid() && old(trace) <= trace && pc == Snapshot(batch)
    {
      pc := Snapshot(batch);
      assert ReceiveBatch(old(St()), St(), batch);
      Record();
    }

    /** Clones the list under its lock. */
    method CloneList() returns (snapshot: seq<Sid>)
      requires Valid() && pc.Snapshot?
      modifies this`subs, this`pc, this`batches, this`lateBatches, this`found, this`trace
      ensures Valid() && old(trace) <= trace
      ensures snapshot == list && pc == Fan(old(pc).batch, snapshot, 0, 0, [])
      ensures batches == old(batches) + [old(pc).batch]
    {
      snapshot := list;
      subs, batches, lateBatches, found, pc :=
        Joined(St()), batches + [pc.batch], lateBatches + (if stop then 1 else 0), [], Fan(pc.batch, list, 0, 0, []);
      assert TakeSnapshot(old(St()), St());
      Record();
    }

    /** The snapshot's subscribers exist, whatever their clients have done since. */
    lemma Listed(i: nat)
      requires Valid() && pc.Fanning() && i < |pc.snapshot|
      ensures pc.snapshot[i] in subs
    {
      RunInv(trace, |trace| - 1);
      assert pc.snapshot[i] == list[i];
    }

    lemma NotedIsGone()
      requires Valid() && pc.NoteDead?
      ensures pc.i < |pc.snapshot| && pc.snapshot[pc.i] in subs && !subs[pc.snapshot[pc.i]].rxAlive
    {
      RunInv(trace, |trace| - 1);
    }

    method TrySend(t: Sid, frame: Frame) returns (r: TryResult)
      requires Valid() && pc.Fan? && pc.i < |pc.snapshot| && pc.j < |pc.batch|
      requires t == pc.snapshot[pc.i] && frame == pc.batch[pc.j]
      modifies this`subs, this`pc, this`trace
      ensures Valid() && old(trace) <= trace
      ensures match r
              case Accepted => SendAccepted(old(St()), St())
              case Full => SendFull(old(St()), St())
              case Disconnected => SendDisconnected(old(St()), St())
      ensures pc == AfterTry(old(pc).batch, old(pc).snapshot, old(pc).i, old(pc).j, old(pc).dead, r)
    {
      Listed(pc.i);
      var Fan(batch, snapshot, i, j, dead) := pc;
      var u := subs[t];
      if !u.rxAlive {
        pc, r := NoteDead(batch, snapshot, i, dead), Disconnected;
        assert SendDisconnected(old(St()), St());
      } else if u.capacity.Some? && |u.queue| >= u.capacity.value {
        subs := subs[t := u.(attempts := u.attempts + [Attempt(frame, false)], log := u.log + [Try])];
        pc, r := Bump(batch, snapshot, i, j, dead, false), Full;
        assert SendFull(old(St()), St());
      } else {
        subs := subs[t := u.(queue := u.queue + [frame], attempts := u.attempts + [Attempt(frame, true)],
                             log := u.log + [Try])];
        pc, r := Bump(batch, snapshot, i, j, dead, true), Accepted;
        assert SendAccepted(old(St()), St());
      }
      Record();
    }

    /** The counter update after a send: `received` or `dropped`. */
    method AddOne(t: Sid, accepted: bool)
      requires Valid() && pc.Bump? && pc.i < |pc.snapshot| && t == pc.snapshot[pc.i] && accepted == pc.accepted
      modifies this`subs, this`pc, this`trace
      ensures Valid() && old(trace) <= trace
      ensures pc == After(old(pc).batch, old(pc).snapshot, old(pc).i, old(pc).j, old(pc).dead)
    {
      Listed(pc.i);
      var u := subs[t];
      subs := subs[t := if accepted then u.(received := u.received + 1, log := u.log + [Count])
                        else u.(dropped := u.dropped + 1, log := u.log + [Count])];
      pc := After(pc.batch, pc.snapshot, pc.i, pc.j, pc.dead);
      assert BumpCounter(old(St()), St());
      Record();
    }

    /** The address of t, which is disconnected, is noted after the others. */
    ghost predicate NotedFor(t: Sid, dead: seq<Addr>, more: seq<Addr>)
      reads this`subs
    {
      t in subs && !subs[t].rxAlive && more == dead + [subs[t].addr]
    }

    method NoteAddress(t: Sid, dead: seq<Addr>) returns (more: seq<Addr>)
      requires Valid() && pc.NoteDead? && pc.i < |pc.snapshot| && t == pc.snapshot[pc.i] && dead == pc.dead
      modifies this`found, this`pc, this`trace
      ensures Valid() && old(trace) <= trace
      ensures pc == Fan(old(pc).batch, old(pc).snapshot, old(pc).i + 1, 0, more)
      ensures NotedFor(t, dead, more)
    {
      Listed(pc.i);
      NotedIsGone();
      more := dead + [subs[t].addr];
      found := found + [t];
      pc := Fan(pc.batch, pc.snapshot, pc.i + 1, 0, more);
      assert PushDead(old(St()), St());
      Record();
    }

    method DropSnapshot()
      requires Valid() && pc.Fan? && pc.i == |pc.snapshot|
      modifies this`pc, this`trace
      ensures Valid() && old(trace) <= trace
      ensures pc == if old(pc).dead == [] then CheckStop else Retain(old(pc).dead)
    {
      pc := if pc.dead == [] then CheckStop else Retain(pc.dead);
      assert Release(old(St()), St());
      Record();
    }

    /** `retain` under the lock. */
    method Cull(dead: seq<Addr>)
      requires Valid() && pc == Retain(dead)
      modifies this`list, this`pc, this`trace
      ensures Valid() && old(trace) <= trace && pc == CheckStop
    {
      list, pc := Kept(subs, list, dead), CheckStop;
      assert RetainLive(old(St()), St());
      Record();
    }

    // ---------------------------------------------------------------- the reader's loops

    /** What the outcome of a send calls for. */
    method Settle(snapshot: seq<Sid>, i: nat, batch: seq<Frame>, j: nat, dead: seq<Addr>, outcome: TryResult)
      returns (more: seq<Addr>, gone: bool)
      requires Valid() && i < |snapshot| && j < |batch| && pc == AfterTry(batch, snapshot, i, j, dead, outcome)
      modifies this`subs, this`list, this`stop, this`pc, this`found, this`pauses, this`trace
      ensures Valid() && old(trace) <= trace && (old(stop) ==> stop)
      ensures if gone then pc == Fan(batch, snapshot, i + 1, 0, more) && NotedFor(snapshot[i], dead, more)
              else more == dead && pc == After(batch, snapshot, i, j, dead)
    {
      more, gone := dead, false;
      Pause();
      match outcome {
        case Accepted => AddOne(snapshot[i], true);
        case Full => AddOne(snapshot[i], false);
        case Disconnected =>
          more := NoteAddress(snapshot[i], dead);
          gone := true;
      }
    }

    /** One frame to one subscriber. */
    method SendOne(snapshot: seq<Sid>, i: nat, batch: seq<Frame>, j: nat, dead: seq<Addr>)
      returns (more: seq<Addr>, gone: bool)
      requires Valid() && i < |snapshot| && j < |batch| && pc == Fan(batch, snapshot, i, j, dead)
      modifies this`subs, this`list, this`stop, this`pc, this`found, this`pauses, this`trace
      ensures Valid() && old(trace) <= trace && (old(stop) ==> stop)
      ensures if gone then pc == Fan(batch, snapshot, i + 1, 0, more) && NotedFor(snapshot[i], dead, more)
              else more == dead && pc == After(batch, snapshot, i, j, dead)
    {
      Pause();
      var outcome := TrySend(snapshot[i], batch[j]);
      more, gone := Settle(snapshot, i, batch, j, dead, outcome);
    }

    /** The frames of one batch to one subscriber, until it proves disconnected. */
    method SendAll(snapshot: seq<Sid>, i: nat, batch: seq<Frame>, dead: seq<Addr>) returns (more: seq<Addr>)
      requires Valid() && batch != [] && i < |snapshot| && pc == Fan(batch, snapshot, i, 0, dead)
      modifies this`subs, this`list, this`stop, this`pc, this`found, this`pauses, this`trace
      ensures Valid() && old(trace) <= trace && (old(stop) ==> stop)
      ensures pc == Fan(batch, snapshot, i + 1, 0, more)
      ensures more == dead || NotedFor(snapshot[i], dead, more)
    {
      var gone;
      for j := 0 to |batch|
        invariant Valid() && old(trace) <= trace && (old(stop) ==> stop)
        invariant pc == if j < |batch| then Fan(batch, snapshot, i, j, dead) else Fan(batch, snapshot, i + 1, 0, dead)
      {
        more, gone := SendOne(snapshot, i, batch, j, dead);
        if gone {
          return;
        }
      }
      return dead;
    }

    /** Releasing the snapshot, and the culling if anyone was found disconnected. */
    method Finish(dead: seq<Addr>)
      requires Valid() && pc.Fan? && pc.i == |pc.snapshot| && dead == pc.dead
      modifies this`subs, this`list, this`stop, this`pc, this`pauses, this`trace
      ensures Valid() && old(trace) <= trace && (old(stop) ==> stop)
      ensures pc == CheckStop
    {
      Pause();
      DropSnapshot();
      if dead != [] {
        Pause();
        Cull(dead);
      }
    }

    /** One batch to every subscriber of the snapshot, and the culling after it. */
    method FanOutBatch(batch: seq<Frame>)
      requires Valid() && batch != [] && pc == Snapshot(batch)
      modifies this
      ensures Valid() && old(trace) <= trace && (old(stop) ==> stop)
      ensures pc == CheckStop && batches == old(batches) + [batch]
    {
      Pause();
      var snapshot := CloneList();
      var dead: seq<Addr> := [];
      for i := 0 to |snapshot|
        invariant Valid() && old(trace) <= trace && (old(stop) ==> stop)
        invariant pc == Fan(batch, snapshot, i, 0, dead) && batches == old(batches) + [batch]
      {
        dead := SendAll(snapshot, i, batch, dead);
      }
      Finish(dead);
    }

    /** One turn of the loop: receive, and fan out what came. */
    method Turn(decode: Message -> Option<Frame>, buf: array<Frame>, answer: KernelAnswer)
      requires Valid() && pc == Receive
      requires Fits(decode, answer, buf.Length)
      modifies this, buf
      ensures Valid() && old(trace) <= trace && (old(stop) ==> stop)
      ensures pc == CheckStop
      ensures batches == old(batches) + BatchOf(decode, answer)
    {
      Pause();
      var n := RecvBatch(decode, buf, answer);
      if n.Err? || n.value == 0 {
        KeepWaiting();
        return;
      }
      var batch := buf[..n.value];
      Deliver(batch);
      FanOutBatch(batch);
    }

    /** The condition of the outer loop. */
    method LoopHeadHere() returns (stopped: bool)
      requires Valid() && pc == CheckStop
      modifies this`subs, this`list, this`stop, this`pc, this`pauses, this`trace
      ensures Valid() && old(trace) <= trace && (old(stop) ==> stop)
      ensures stopped == stop && pc == if stop then Stopped else Receive
    {
      Pause();
      stopped := LoadStop();
    }

    /** The outer loop, with its buffer. */
    method ReadLoop(decode: Message -> Option<Frame>, buf: array<Frame>, answers: seq<KernelAnswer>) returns (k: nat)
      requires Valid() && pc == CheckStop
      requires AllFit(decode, answers, buf.Length)
      modifies this, buf
      ensures Valid() && old(trace) <= trace
      ensures k <= |answers| && batches == old(batches) + BatchesOf(decode, answers[..k])
      ensures if pc == Stopped then stop else k == |answers| && pc == Receive
      ensures old(stop) ==> k == 0
    {
      k := 0;
      while true
        invariant Valid() && old(trace) <= trace && pc == CheckStop
        invariant k <= |answers| && batches == old(batches) + BatchesOf(decode, answers[..k])
        invariant old(stop) ==> stop && k == 0
        decreases |answers| - k
      {
        var stopped := LoopHeadHere();
        if stopped || k == |answers| {
          return;
        }
        FitsAt(decode, answers, buf.Length, k);
        BatchesNext(decode, answers, k, old(batches));
        Turn(decode, buf, answers[k]);
        k := k + 1;
      }
    }

    /** `run_reader`, until stopped or out of kernel answers.  Every execution is a run of the machine;
        each answer's data frames, up to 64, are begun and finished as one batch before the stop flag
        is looked at again; in the end every live unbounded subscriber has all of them since it joined. */
    method RunReader(decode: Message -> Option<Frame>, answers: seq<KernelAnswer>, batchSize: nat) returns (k: nat)
      requires Valid() && pc == CheckStop && batchSize > 0
      requires AllFit(decode, answers, Min(batchSize, MAX_BATCH))
      modifies this
      ensures Valid() && old(trace) <= trace
      ensures k <= |answers| && batches == old(batches) + BatchesOf(decode, answers[..k])
      ensures if pc == Stopped then stop else k == |answers| && pc == Receive
      ensures old(stop) ==> k == 0
      ensures AllDelivered()
    {
      var active := Min(batchSize, MAX_BATCH);
      var buf := new Frame[active](_ => Frame(Standard(0), Classic, 0, Zeros(64), None));
      k := ReadLoop(decode, buf, answers);
      Delivered();
    }
  }
}
