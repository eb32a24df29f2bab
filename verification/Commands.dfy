// internal/database/database.go `Execute` over internal/database/wal/wal.go: commands that log, wait and apply, as
// steps over the WAL machine and the store. A writer applies its row only when it has been told OK within its deadline.
module Commands {
  import opened ByteCodec
  import opened WalRecord
  import opened LogStream
  import opened Replay
  import W = WalWorker
  import D = Durability

  // `applied` is history: the rows in the order they reached the store, beginning with those found at start.
  datatype State = State(worker: W.State, store: Store, applied: seq<Row>)

  datatype Event =
    | Worker(e: W.Event)   // a step of the WAL: its worker, or a writer that draws, sends, registers, takes its answer
    | Apply(row: Row)      // a writer told OK changes the store; one that timed out never does
    | Crash

  function Started(batch: nat, log: seq<Row>): (s: State)
    requires AllWrites(log)
  {
    State(W.Start(batch, log), Run(map[], log), log)
  }

  predicate Enabled(s: State, e: Event)
  {
    match e
    case Worker(we) =>
      && W.Enabled(s.worker, we) && D.Obeys(D.SegmentFiles, s.worker, we)
      && (we.Draw? ==> IsWrite(D.DrawnRow(0, we)))
    case Apply(row) => IsWrite(row) && row in s.worker.sent && D.ToldOk(s.worker, row.lsn) && row !in s.applied
    case Crash => AllWrites(s.worker.log) && AllFit(s.worker.log)
  }

  function Step(s: State, e: Event): (t: State)
    requires Enabled(s, e)
  {
    match e
    case Worker(we) => s.(worker := W.Step(s.worker, we))
    case Apply(row) => s.(store := Replay.Apply(s.store, row), applied := s.applied + [row])
    case Crash => Started(s.worker.batch, s.worker.log)
  }

  predicate Allowed(s: State, events: seq<Event>)
    decreases |events|
  {
    events == [] || (Enabled(s, events[0]) && Allowed(Step(s, events[0]), events[1..]))
  }

  function After(s: State, events: seq<Event>): (t: State)
    requires Allowed(s, events)
    decreases |events|
  {
    if events == [] then s else After(Step(s, events[0]), events[1..])
  }

  /* ---------- Every run ---------- */

  predicate AllDrawnWrites(s: W.State)
  {
    AllWrites(s.sent) && forall lsn :: lsn in s.drawn ==> IsWrite(s.drawn[lsn])
  }

  // Every row applied was sent, applied once, and told OK unless it is in the log.
  predicate AppliedOk(s: State)
  {
    && (forall i :: 0 <= i < |s.applied| ==> s.applied[i] in s.worker.sent)
    && (forall i, j :: 0 <= i < j < |s.applied| ==> s.applied[i] != s.applied[j])
    && (forall i :: 0 <= i < |s.applied| ==> D.ToldOk(s.worker, s.applied[i].lsn) || s.applied[i] in s.worker.log)
  }

  // Every row sent is applied, answered, or its writer waits.
  predicate Placed(w: W.State, applied: seq<Row>, row: Row)
  {
    row in applied || row.lsn in w.answers || row.lsn in w.futures || row.lsn in w.unregistered
  }

  predicate AllPlaced(s: State)
  {
    forall i :: 0 <= i < |s.worker.sent| ==> Placed(s.worker, s.applied, s.worker.sent[i])
  }

  predicate Inv(s: State)
  {
    && W.Inv(s.worker) && D.FailureIsFinal(s.worker) && AllDrawnWrites(s.worker)
    && AllWrites(s.applied) && s.store == Run(map[], s.applied)
    && AppliedOk(s) && AllPlaced(s)
  }

  lemma WorkerStepInv(s: State, we: W.Event)
    requires Inv(s) && Enabled(s, Worker(we))
    ensures Inv(Step(s, Worker(we)))
  {
    W.OneStepInv(s.worker, we);
    D.FinalStep(s.worker, we);
    DrawnStep(s.worker, we);
    ToldOrLogged(s, we);
    PlacedStep(s, we);
    hide W.Inv, AllDrawnWrites, AllWrites, Run, D.Obeys, D.FailureIsFinal, AppliedOk, AllPlaced;
  }

  lemma PlacedStep(s: State, we: W.Event)
    requires W.Inv(s.worker) && AllPlaced(s) && W.Enabled(s.worker, we)
    ensures AllPlaced(s.(worker := W.Step(s.worker, we)))
  {
    var t := W.Step(s.worker, we);
    assert we.Send? ==> s.worker.drawn[we.lsn].lsn == we.lsn;
    assert t.sent == if we.Send? then s.worker.sent + [s.worker.drawn[we.lsn]] else s.worker.sent;
    forall i | 0 <= i < |t.sent| ensures Placed(t, s.applied, t.sent[i]) {
      if i < |s.worker.sent| {
        assert Placed(s.worker, s.applied, s.worker.sent[i]);
      }
    }
  }

  lemma DrawnStep(s: W.State, we: W.Event)
    requires AllDrawnWrites(s) && W.Enabled(s, we) && (we.Draw? ==> IsWrite(D.DrawnRow(0, we)))
    ensures AllDrawnWrites(W.Step(s, we))
  {
    hide W.PutAll;
  }

  // Being logged is for ever, and so is having been told OK.
  lemma ToldOrLogged(s: State, we: W.Event)
    requires W.Inv(s.worker) && AppliedOk(s) && W.Enabled(s.worker, we)
    ensures AppliedOk(s.(worker := W.Step(s.worker, we)))
  {
    if we.Answer? {
      W.NotYetAnswered(s.worker);
    }
    hide W.PutAll, W.Inv;
  }

  lemma StartedInv(batch: nat, log: seq<Row>)
    requires W.Startable(log) && AllWrites(log)
    ensures Inv(Started(batch, log))
  {
    hide W.MaxLsn, Run;
    W.StartInv(batch, log);
    assert forall i, j :: 0 <= i < j < |log| ==> log[i] != log[j];
  }

  lemma LogStartable(s: W.State)
    requires W.Inv(s)
    ensures W.Startable(s.log)
  {
    hide W.FuturesOk, W.PhaseOk;
    assert forall i :: 0 <= i < |s.log| ==> s.log[i] == s.sent[i];
  }

  lemma ApplyKeepsApplied(s: State, row: Row)
    requires Inv(s) && Enabled(s, Apply(row))
    ensures AppliedOk(Step(s, Apply(row))) && AllPlaced(Step(s, Apply(row)))
  {
    hide W.Inv, AllDrawnWrites, Run, AllWrites, D.FailureIsFinal;
    assert forall i :: 0 <= i < |s.worker.sent| ==> Placed(s.worker, s.applied, s.worker.sent[i]);
  }

  lemma StepInv(s: State, e: Event)
    requires Inv(s) && Enabled(s, e)
    ensures Inv(Step(s, e))
  {
    match e
    case Worker(we) => WorkerStepInv(s, we);
    case Apply(row) =>
      ApplyKeepsApplied(s, row);
      hide W.Inv, AllDrawnWrites, AppliedOk, AllPlaced, D.FailureIsFinal;
      assert (s.applied + [row])[..|s.applied|] == s.applied;
    case Crash =>
      LogStartable(s.worker);
      StartedInv(s.worker.batch, s.worker.log);
  }

  lemma {:induction false} RunInv(s: State, events: seq<Event>)
    requires Inv(s) && Allowed(s, events)
    ensures Inv(After(s, events))
    decreases |events|
  {
    hide Step, Enabled, Inv;
    if events != [] {
      StepInv(s, events[0]);
      RunInv(Step(s, events[0]), events[1..]);
    }
  }

  // In every run of any number of writers, timeouts and crashes: the rows sent are the log, then the buffer, then the
  // queue; the store is the replay of the rows applied, each of them sent, applied once, and told OK unless it is in
  // the log; a crash leaves the replay of the log.
  lemma StoreIsWhatWasApplied(batch: nat, log: seq<Row>, events: seq<Event>)
    requires W.Startable(log) && AllWrites(log) && Allowed(Started(batch, log), events)
    ensures Described(After(Started(batch, log), events))
  {
    StartedInv(batch, log);
    RunInv(Started(batch, log), events);
    hide Allowed, After;
    InvDescribes(After(Started(batch, log), events));
  }

  ghost predicate Described(s: State)
  {
    && s.worker.log + s.worker.buf + s.worker.queue == s.worker.sent && DistinctLsns(s.worker.sent)
    && AllWrites(s.applied) && AllWrites(s.worker.log) && s.store == Run(map[], s.applied) && AppliedOk(s)
    && (s.store == Run(map[], s.worker.log) <==> SameLastWrites(s.applied, s.worker.log))
    && (Enabled(s, Crash) ==> Step(s, Crash).store == Run(map[], s.worker.log))
  }

  lemma InvDescribes(s: State)
    requires Inv(s)
    ensures Described(s)
  {
    LogWrites(s.worker);
    hide Run, SameLastWrites, AppliedOk, AllPlaced, W.FuturesOk;
    SameStoreExactlyWhen(s.applied, s.worker.log);
  }

  lemma LogWrites(s: W.State)
    requires W.Conserved(s) && AllWrites(s.sent)
    ensures AllWrites(s.log)
  {
    assert forall i :: 0 <= i < |s.log| ==> s.log[i] == s.sent[i];
  }

  lemma {:induction false} RunsCompose(s: State, a: seq<Event>, b: seq<Event>)
    requires Allowed(s, a) && Allowed(After(s, a), b)
    ensures Allowed(s, a + b) && After(s, a + b) == After(After(s, a), b)
    decreases |a|
  {
    hide Step, Enabled;
    if a == [] {
      assert a + b == b;
    } else {
      RunsCompose(Step(s, a[0]), a[1..], b);
      assert (a + b)[1..] == a[1..] + b;
    }
  }

  lemma OneEvent(s: State, e: Event)
    requires Enabled(s, e)
    ensures Allowed(s, [e]) && After(s, [e]) == Step(s, e)
  {
    hide Step, Enabled;
    assert [e][1..] == [];
  }

  /* ---------- Runs of the WAL as runs of commands ---------- */

  function Lifted(events: seq<W.Event>): (r: seq<Event>)
    ensures |r| == |events|
    ensures forall i :: 0 <= i < |events| ==> r[i] == Worker(events[i])
  {
    seq(|events|, i requires 0 <= i < |events| => Worker(events[i]))
  }

  predicate DrawsWrites(events: seq<W.Event>)
  {
    forall i :: 0 <= i < |events| && events[i].Draw? ==> IsWrite(D.DrawnRow(0, events[i]))
  }

  lemma {:induction false} LiftedRun(s: State, events: seq<W.Event>)
    requires W.Allowed(s.worker, events) && D.WrittenBy(D.SegmentFiles, s.worker, events) && DrawsWrites(events)
    ensures Allowed(s, Lifted(events)) && After(s, Lifted(events)) == s.(worker := W.After(s.worker, events))
    decreases |events|
  {
    hide W.Step, W.Enabled, D.Obeys, IsWrite;
    if events != [] {
      LiftedRun(s.(worker := W.Step(s.worker, events[0])), events[1..]);
      assert Lifted(events)[1..] == Lifted(events[1..]);
    }
  }

  // One writer alone can be refused by its timeout with its row in the log: the store does not have it, and after the
  // next crash it does.
  lemma RefusedWriteComesBack(a: W.Event)
    requires a.Draw? && IsWrite(D.DrawnRow(0, a)) && Fits(D.DrawnRow(1, a))
    ensures var s, events := Started(1, []), Lifted(D.AnsweredTooEarly(a));
            && Allowed(s, events)
            && var t := After(s, events);
               && t.store == map[] && t.applied == [] && t.worker.answers == map[]
               && Enabled(t, Crash) && Step(t, Crash).store == Replay.Apply(map[], D.DrawnRow(1, a))
  {
    var s := Started(1, []);
    var r := D.DrawnRow(1, a);
    D.LoggedAndNotAnswered(a);
    hide W.Allowed, W.After, D.WrittenBy, D.Follows, W.MaxLsn, Marshalable;
    LiftedRun(s, D.AnsweredTooEarly(a));
    assert [r][..0] == [];
  }

  /* ---------- Two writers, one flush ---------- */

  function BothWritten(a: W.Event, b: W.Event): (events: seq<W.Event>)
  {
    [a, b, W.Send(1), W.Send(2), W.Register(1), W.Register(2), W.Receive, W.Receive, W.WriteOk, W.Answer]
  }

  lemma BothSent(s: W.State, a: W.Event, b: W.Event) returns (t: W.State)
    requires s == W.Start(2, []) && a.Draw? && b.Draw?
    ensures D.Reaches(D.SegmentFiles, D.Free, s, [a, b, W.Send(1), W.Send(2)], t)
    ensures t == s.(next := 2, queue := [D.DrawnRow(1, a), D.DrawnRow(2, b)], unregistered := {1, 2},
                    replies := map[1 := W.FRESH, 2 := W.FRESH], sent := [D.DrawnRow(1, a), D.DrawnRow(2, b)])
  {
    hide D.Reaches, W.MaxLsn, D.CanSucceed;
    var t2 := BothDrawn(s, a, b);
    var t3 := W.Step(t2, W.Send(1));
    t := W.Step(t3, W.Send(2));
    assert t.drawn == map[];
    D.Next(D.SegmentFiles, D.Free, s, [a, b], t2, W.Send(1));
    D.Next(D.SegmentFiles, D.Free, s, [a, b] + [W.Send(1)], t3, W.Send(2));
    assert [a, b] + [W.Send(1)] + [W.Send(2)] == [a, b, W.Send(1), W.Send(2)];
  }

  lemma BothDrawn(s: W.State, a: W.Event, b: W.Event) returns (t: W.State)
    requires s == W.Start(2, []) && a.Draw? && b.Draw?
    ensures D.Reaches(D.SegmentFiles, D.Free, s, [a, b], t)
    ensures t == s.(next := 2, drawn := map[1 := D.DrawnRow(1, a), 2 := D.DrawnRow(2, b)],
                    replies := map[1 := W.FRESH, 2 := W.FRESH])
  {
    assert D.Reaches(D.SegmentFiles, D.Free, s, [], s);
    hide D.Reaches;
    var t1 := W.Step(s, a);
    t := W.Step(t1, b);
    D.Next(D.SegmentFiles, D.Free, s, [], s, a);
    assert [] + [a] == [a];
    D.Next(D.SegmentFiles, D.Free, s, [a], t1, b);
    assert [a] + [b] == [a, b];
  }

  lemma BothBuffered(s: W.State, events: seq<W.Event>, t: W.State) returns (t': W.State)
    requires D.Reaches(D.SegmentFiles, D.Free, s, events, t) && t.batch == 2 && t.phase == W.Waiting
    requires |t.queue| == 2 && t.buf == [] && t.unregistered == {1, 2} && t.futures == []
    ensures D.Reaches(D.SegmentFiles, D.Free, s,
            events + [W.Register(1)] + [W.Register(2)] + [W.Receive] + [W.Receive], t')
    ensures t' == t.(queue := [], buf := t.queue, unregistered := {}, futures := [1, 2], phase := W.Flushing(false))
  {
    hide D.Reaches;
    var t1 := W.Step(t, W.Register(1));
    var t2 := W.Step(t1, W.Register(2));
    var t3 := W.Step(t2, W.Receive);
    t' := W.Step(t3, W.Receive);
    assert t'.buf == t.queue && t'.queue == [];
    D.Next(D.SegmentFiles, D.Free, s, events, t, W.Register(1));
    D.Next(D.SegmentFiles, D.Free, s, events + [W.Register(1)], t1, W.Register(2));
    D.Next(D.SegmentFiles, D.Free, s, events + [W.Register(1)] + [W.Register(2)], t2, W.Receive);
    D.Next(D.SegmentFiles, D.Free, s, events + [W.Register(1)] + [W.Register(2)] + [W.Receive], t3, W.Receive);
  }

  lemma BothTold(s: W.State, a: W.Event, b: W.Event) returns (t: W.State)
    requires s == W.Start(2, []) && a.Draw? && b.Draw?
    requires Marshalable(D.DrawnRow(1, a)) && Marshalable(D.DrawnRow(2, b))
    ensures D.Reaches(D.SegmentFiles, D.Free, s, BothWritten(a, b), t)
    ensures t.log == t.sent == [D.DrawnRow(1, a), D.DrawnRow(2, b)] && D.ToldOk(t, 1) && D.ToldOk(t, 2)
  {
    hide D.Reaches, Marshalable;
    var t1 := BothSent(s, a, b);
    var e1 := [a, b, W.Send(1), W.Send(2)];
    var t2 := BothBuffered(s, e1, t1);
    var e2 := e1 + [W.Register(1)] + [W.Register(2)] + [W.Receive] + [W.Receive];
    assert Encodable(t2.buf);
    var t3 := D.FlushWrites(D.SegmentFiles, D.Free, s, e2, t2, W.WriteOk);
    t := D.FlushAnswers(D.SegmentFiles, D.Free, s, e2 + [W.WriteOk], t3);
    assert t3.futures[0] == 1 && t3.futures[1] == 2;
    assert e2 + [W.WriteOk] + [W.Answer] == BothWritten(a, b);
  }

  // Two writers told OK by one flush apply their rows in either order. If both set one key, the store can keep the
  // value the log ends without, until the next crash.
  lemma StoreCanDisagreeWithLog(key: Bytes, x: Bytes, y: Bytes)
    requires |key| <= MAX_U16 && |x| <= MAX_U16 && |y| <= MAX_U16 && x != y
    ensures var a, b := W.Draw(SET, [key, x]), W.Draw(SET, [key, y]);
            var s, r1, r2 := Started(2, []), Row(1, SET, [key, x]), Row(2, SET, [key, y]);
            var events := Lifted(BothWritten(a, b)) + [Apply(r2)] + [Apply(r1)];
            && Allowed(s, events)
            && var t := After(s, events);
               && t.worker.log == [r1, r2]
               && t.store == map[key := x] && AllWrites(t.worker.log) && Run(map[], t.worker.log) == map[key := y]
  {
    var a, b := W.Draw(SET, [key, x]), W.Draw(SET, [key, y]);
    var r1, r2 := Row(1, SET, [key, x]), Row(2, SET, [key, y]);
    var s := Started(2, []);
    var t := BothTold(W.Start(2, []), a, b);
    LiftedRun(s, BothWritten(a, b));
    hide W.Allowed, W.After, D.WrittenBy, D.Follows, W.MaxLsn, W.Step, W.Enabled;
    var t0 := s.(worker := t);
    AppliedInReverse(t0, r1, r2);
    hide Step, Enabled, Allowed, After;
    RunsCompose(s, Lifted(BothWritten(a, b)), [Apply(r2)]);
    RunsCompose(s, Lifted(BothWritten(a, b)) + [Apply(r2)], [Apply(r1)]);
    RunOfTwo(r1, r2);
  }

  lemma AppliedInReverse(s: State, r1: Row, r2: Row)
    requires r1 != r2 && IsWrite(r1) && IsWrite(r2) && r1 in s.worker.sent && r2 in s.worker.sent
    requires D.ToldOk(s.worker, r1.lsn) && D.ToldOk(s.worker, r2.lsn) && r1 !in s.applied && r2 !in s.applied
    ensures Allowed(s, [Apply(r2)]) && Allowed(After(s, [Apply(r2)]), [Apply(r1)])
    ensures After(After(s, [Apply(r2)]), [Apply(r1)]) ==
            State(s.worker, Replay.Apply(Replay.Apply(s.store, r2), r1), s.applied + [r2] + [r1])
  {
    hide IsWrite, Replay.Apply, D.ToldOk;
    var t := Step(s, Apply(r2));
    OneEvent(s, Apply(r2));
    OneEvent(t, Apply(r1));
  }

  lemma RunOfTwo(r1: Row, r2: Row)
    requires IsWrite(r1) && IsWrite(r2)
    ensures AllWrites([r1, r2]) && Run(map[], [r1, r2]) == Replay.Apply(Replay.Apply(map[], r1), r2)
  {
    assert [r1, r2][..1] == [r1] && [r1][..0] == [];
    assert Run(map[], [r1]) == Replay.Apply(map[], r1);
  }
}
