/** Who is culled: a subscriber whose receiver is gone before its turn in a fan-out is off the list when
  that fan-out is over, and stays off (mcanbus/src/reader.rs:255-286).
 */
module FanOutCulling {
  import opened FanOut

  predicate Gone(s: State, t: Sid) {
    t in s.subs && s.subs[t].pushed && !s.subs[t].rxAlive
  }

  /** A batch is on its way to t, and no frame of it has been tried there yet. */
  ghost predicate Awaits(s: State, t: Sid) {
    || (s.pc.Snapshot? && t in s.list)
    || (s.pc.Fanning()
        && exists p ::
             s.pc.i <= p < |s.pc.snapshot| && s.pc.snapshot[p] == t && (p == s.pc.i ==> s.pc.Fan? && s.pc.j == 0))
  }

  /** The fan-out has found t disconnected, or is about to say so. */
  predicate Met(s: State, t: Sid) {
    || ((s.pc.Fanning() || s.pc.Retain?) && t in s.found)
    || (s.pc.NoteDead? && s.pc.i < |s.pc.snapshot| && t == s.pc.snapshot[s.pc.i])
  }

  ghost predicate Doomed(s: State, t: Sid) {
    Gone(s, t) && (Awaits(s, t) || Met(s, t))
  }

  predicate Absent(s: State, t: Sid) {
    Gone(s, t) && t !in s.list
  }

  // ---------------------------------------------------------------- one step

  lemma ReaderGone(s: State, s': State, t: Sid)
    requires ReaderStep(s, s') && Gone(s, t)
    ensures Gone(s', t) && (t in s'.list ==> t in s.list)
  {
  }

  lemma ClientGone(s: State, s': State, u: Sid, t: Sid)
    requires ClientStep(s, s', u) && Gone(s, t)
    ensures Gone(s', t) && (t in s'.list ==> t in s.list)
    ensures s'.pc == s.pc && s'.found == s.found && s.list <= s'.list
  {
  }

  /** Gone is gone, and off the list is off the list. */
  lemma GoneStays(s: State, s': State, t: Sid)
    requires Next(s, s') && Gone(s, t)
    ensures Gone(s', t) && (Absent(s, t) ==> Absent(s', t))
  {
    if ReaderStep(s, s') {
      ReaderGone(s, s', t);
    } else {
      var u :| ClientStep(s, s', u);
      ClientGone(s, s', u, t);
    }
  }

  lemma ClientDoomed(s: State, s': State, u: Sid, t: Sid)
    requires ClientStep(s, s', u) && Doomed(s, t)
    ensures Awaits(s', t) || Met(s', t)
  {
    ClientGone(s, s', u, t);
    if s.pc.Fanning() && Awaits(s, t) {
      var p :| s.pc.i <= p < |s.pc.snapshot| && s.pc.snapshot[p] == t && (p == s.pc.i ==> s.pc.Fan? && s.pc.j == 0);
      assert s'.pc.snapshot[p] == t;
    }
  }

  /** A send moves on within its subscriber's turn, which is not t's unless it finds t gone. */
  lemma SendDoomed(s: State, s': State, t: Sid)
    requires TrySend(s, s') && Doomed(s, t)
    ensures Awaits(s', t) || Met(s', t)
  {
    if !Met(s, t) {
      var p :| s.pc.i <= p < |s.pc.snapshot| && s.pc.snapshot[p] == t && (p == s.pc.i ==> s.pc.Fan? && s.pc.j == 0);
      if p > s.pc.i {
        assert s'.pc.snapshot[p] == t;
      }
    }
  }

  lemma CountDoomed(s: State, s': State, t: Sid)
    requires (BumpCounter(s, s') || PushDead(s, s')) && Doomed(s, t)
    ensures Awaits(s', t) || Met(s', t)
  {
    if !Met(s, t) {
      var p :| s.pc.i <= p < |s.pc.snapshot| && s.pc.snapshot[p] == t && (p == s.pc.i ==> s.pc.Fan? && s.pc.j == 0);
      assert s'.pc.snapshot[p] == t;
    }
  }

  lemma SnapshotDoomed(s: State, s': State, t: Sid)
    requires TakeSnapshot(s, s') && Doomed(s, t)
    ensures Awaits(s', t)
  {
    var p :| 0 <= p < |s.list| && s.list[p] == t;
    assert s'.pc.snapshot[p] == t;
  }

  /** Doom is kept until the cull carries it out. */
  lemma DoomedStep(s: State, s': State, t: Sid)
    requires Inv(s) && Next(s, s') && Doomed(s, t)
    ensures if RetainLive(s, s') then Absent(s', t) else Doomed(s', t)
  {
    GoneStays(s, s', t);
    if RetainLive(s, s') {
      OnlyFoundRemoved(s, s');
    } else if ReaderStep(s, s') {
      if TakeSnapshot(s, s') {
        SnapshotDoomed(s, s', t);
      } else if TrySend(s, s') {
        SendDoomed(s, s', t);
      } else if BumpCounter(s, s') || PushDead(s, s') {
        CountDoomed(s, s', t);
      }
    } else {
      var u :| ClientStep(s, s', u);
      ClientDoomed(s, s', u, t);
    }
  }

  // ---------------------------------------------------------------- whole runs

  lemma {:induction false} DoomedRun(run: seq<State>, a: nat, b: nat, t: Sid)
    requires Run(run) && a <= b < |run| && (Doomed(run[a], t) || Absent(run[a], t))
    ensures Doomed(run[b], t) || Absent(run[b], t)
    ensures Absent(run[a], t) ==> Absent(run[b], t)
    decreases b - a
  {
    if a < b {
      DoomedRun(run, a, b - 1, t);
      RunInv(run, b - 1);
      assert Next(run[b - 1], run[b - 1 + 1]);
      if Absent(run[b - 1], t) {
        GoneStays(run[b - 1], run[b], t);
      } else {
        DoomedStep(run[b - 1], run[b], t);
      }
    }
  }

  /** In every run: a subscriber whose receiver was gone at some moment (a) of a fan-out before its turn
      is not in the list once that fan-out is over (c), nor at any time after (b). */
  lemma GoneBeforeItsTurn(run: seq<State>, a: nat, c: nat, b: nat, t: Sid)
    requires Run(run) && a <= c <= b < |run|
    requires Gone(run[a], t) && Awaits(run[a], t) && run[c].pc.CheckStop?
    ensures t !in run[b].list
  {
    DoomedRun(run, a, c, t);
    DoomedRun(run, c, b, t);
  }

  /** A fan-out that notes nobody met nobody gone. */
  lemma NothingToCull(s: State, s': State, t: Sid)
    requires Reachable(s) && Release(s, s') && s'.pc.CheckStop?
    ensures s.found == [] && !Doomed(s, t)
  {
    ReachableInv(s);
  }
}
