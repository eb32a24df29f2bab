// internal/database/database.go: commands of one client after the other, each with its own wait for the answer, and
// crashes in between. What the WAL's worker does meanwhile is part of the operation: any schedule of its steps.
module Operations {
  import opened ByteCodec
  import opened WalRecord
  import opened LogStream
  import opened Replay
  import W = WalWorker
  import D = Durability
  import C = Commands
  import Query

  const OK_ANSWER: Bytes := [79, 75]

  // LSNs exactly 1, 2, ..., n, in order.
  predicate Numbered(log: seq<Row>)
  {
    forall i :: 0 <= i < |log| ==> log[i].lsn == i + 1
  }

  lemma {:induction false} MaxLsnOfNumbered(log: seq<Row>)
    requires Numbered(log)
    ensures W.MaxLsn(log) == |log|
  {
    if log != [] {
      MaxLsnOfNumbered(log[..|log| - 1]);
    }
  }

  /* ---------- One write ---------- */

  predicate NoCancel(events: seq<W.Event>)
  {
    forall i :: 0 <= i < |events| ==> !events[i].Cancel?
  }

  predicate Legal(w: W.State, events: seq<W.Event>)
  {
    W.Allowed(w, events) && D.WrittenBy(D.SegmentFiles, w, events)
  }

  // A command, with the worker's steps before its row is sent, then until its future is registered, then until the wait
  // for the answer ends.
  datatype Op =
    | Command(q: Query.Query, sending: seq<W.Event>, registering: seq<W.Event>, waiting: seq<W.Event>)
    | Crash

  // What a client gets. A writer that finds the queue full stays blocked.
  datatype Answer = Value(v: Bytes) | Refused | TimedOut | Blocked

  // What the parser lets through (`Query.ParsedCommandsReplay`).
  predicate IsCommand(q: Query.Query)
  {
    if q.methodId == GET then |q.args| >= 1 else IsWrite(Row(0, q.methodId, q.args))
  }

  function Drawing(op: Op): (events: seq<W.Event>)
    requires op.Command?
  {
    [W.Draw(op.q.methodId, op.q.args)] + op.sending
  }

  function Sending(op: Op, lsn: U64): (events: seq<W.Event>)
    requires op.Command?
  {
    [W.Send(lsn)] + (op.registering + [W.Register(lsn)] + op.waiting)
  }

  function RowOf(w: W.State, q: Query.Query): (r: Row)
    requires w.next < 0xFFFF_FFFF_FFFF_FFFF
  {
    Row(w.next + 1, q.methodId, q.args)
  }

  predicate WriteAllowed(w: W.State, op: Op)
  {
    && op.Command? && w.next < 0xFFFF_FFFF_FFFF_FFFF && IsWrite(Row(0, op.q.methodId, op.q.args))
    && W.Schedule(op.sending) && W.Schedule(op.registering) && W.Schedule(op.waiting)
    && Legal(w, Drawing(op))
    && var t, lsn := W.After(w, Drawing(op)), w.next + 1;
       W.Enabled(t, W.Send(lsn)) ==> Legal(t, Sending(op, lsn))
  }

  // Where the WAL is when the wait ends.
  function Waited(w: W.State, op: Op): (u: W.State)
    requires WriteAllowed(w, op)
  {
    var t, lsn := W.After(w, Drawing(op)), w.next + 1;
    if W.Enabled(t, W.Send(lsn)) then W.After(t, Sending(op, lsn)) else t
  }

  function WriteAnswer(w: W.State, op: Op): (a: Answer)
    requires WriteAllowed(w, op)
  {
    var u, lsn := Waited(w, op), w.next + 1;
    if !W.Enabled(W.After(w, Drawing(op)), W.Send(lsn)) then Blocked
    else if !W.Enabled(u, W.Take(lsn)) then TimedOut
    else if u.replies[lsn].buffered[0] then Value(OK_ANSWER)
    else Refused
  }

  predicate OpAllowed(s: C.State, op: Op)
  {
    match op
    case Command(q, _, _, _) => IsCommand(q) && (q.methodId != GET ==> WriteAllowed(s.worker, op))
    case Crash => C.Enabled(s, C.Crash)
  }

  // Log first, then apply, and only on an OK that comes in time.
  function OpStep(s: C.State, op: Op): (t: C.State)
    requires OpAllowed(s, op)
  {
    match op
    case Command(q, _, _, _) =>
      if q.methodId == GET then s
      else
        var u, row := Waited(s.worker, op), RowOf(s.worker, q);
        var a := WriteAnswer(s.worker, op);
        if a.Value? then C.State(W.Step(u, W.Take(row.lsn)), Apply(s.store, row), s.applied + [row])
        else if a.Refused? then s.(worker := W.Step(u, W.Take(row.lsn)))
        else s.(worker := u)
    case Crash => C.Step(s, C.Crash)
  }

  function OpAnswer(s: C.State, op: Op): (a: Answer)
    requires OpAllowed(s, op) && op.Command?
  {
    if op.q.methodId == GET then Value(match Lookup(s.store, op.q.args[0]) case Some(v) => v case None => [])
    else WriteAnswer(s.worker, op)
  }

  /* ---------- What was asked and what was run ---------- */

  // `ran` is what becomes of a command asked for with any schedules.
  predicate AsAsked(w: W.State, asked: Op, ran: Op)
    requires asked.Command? && WriteAllowed(w, ran)
  {
    var t, lsn := W.After(w, Drawing(ran)), w.next + 1;
    && ran.q == asked.q && Drawing(ran) == D.Runs(w, Drawing(asked))
    && if W.Enabled(t, W.Send(lsn)) then Sending(ran, lsn) == D.Runs(t, Sending(asked, lsn))
       else ran.registering == [] && ran.waiting == []
  }

  predicate OpAsAsked(s: C.State, asked: Op, ran: Op)
    requires OpAllowed(s, ran)
  {
    match asked
    case Crash => ran.Crash?
    case Command(q, _, _, _) =>
      && ran.Command? && ran.q == q
      && if q.methodId == GET then ran == Command(q, [], [], []) else AsAsked(s.worker, asked, ran)
  }

  // An operation that can happen as asked does.
  lemma HappensAsAsked(s: C.State, asked: Op, ran: Op)
    requires OpAllowed(s, asked) && OpAllowed(s, ran) && OpAsAsked(s, asked, ran)
    ensures OpStep(s, ran) == OpStep(s, asked)
    ensures asked.Command? ==> OpAnswer(s, ran) == OpAnswer(s, asked)
  {
    hide W.Step, W.Enabled, W.Allowed, W.After, D.WrittenBy, D.Runs, Drawing, Sending, IsWrite, Apply, W.Schedule;
    if asked.Command? && asked.q.methodId != GET {
      var w, lsn := s.worker, s.worker.next + 1;
      D.RunsAsAsked(w, Drawing(asked));
      var t := W.After(w, Drawing(asked));
      if W.Enabled(t, W.Send(lsn)) {
        D.RunsAsAsked(t, Sending(asked, lsn));
      }
    }
  }

  /* ---------- Between commands ---------- */

  // Something ahead can never be written.
  predicate Stuck(w: W.State)
  {
    !D.CanSucceed(D.SegmentFiles, D.Bound(w))
  }

  // Every command so far has its answer.
  predicate Settled(w: W.State)
  {
    && W.Inv(w) && !w.cancelled && w.drawn == map[] && w.unregistered == {} && w.futures == []
    && (W.Clear(w) || Stuck(w))
  }

  lemma ClearIsNotStuck(w: W.State)
    requires W.Clear(w)
    ensures !Stuck(w)
  {
  }

  // The worker's steps, and the one registration, that follow a send.
  predicate Ours(events: seq<W.Event>, lsn: U64)
  {
    forall i :: 0 <= i < |events| ==> OurStep(events[i], lsn)
  }

  predicate OurStep(e: W.Event, lsn: U64)
  {
    (W.ByWorker(e) && !e.Cancel?) || e == W.Register(lsn)
  }

  predicate OnlyOurs(w: W.State, lsn: U64)
  {
    w.unregistered <= {lsn} && (w.futures == [] || w.futures == [lsn])
  }

  lemma OursStep(w: W.State, e: W.Event, lsn: U64)
    requires W.Inv(w) && W.Enabled(w, e) && OurStep(e, lsn) && OnlyOurs(w, lsn) && !w.cancelled
    ensures var t := W.Step(w, e);
            && W.Inv(t) && OnlyOurs(t, lsn) && !t.cancelled
            && t.drawn == w.drawn && t.sent == w.sent && t.next == w.next
  {
    W.OneStepInv(w, e);
    assert |w.futures| > 0 ==> w.futures[0] !in w.unregistered;
    hide W.Inv, W.PutAll;
  }

  // An answered writer has nothing left behind.
  lemma AnsweredIsGone(w: W.State, lsn: U64)
    requires W.Inv(w) && OnlyOurs(w, lsn) && lsn in w.answers
    ensures w.futures == [] && w.unregistered == {}
  {
    W.NotYetAnswered(w);
    assert lsn in w.unregistered ==> W.OpenFuture(w, lsn);
    assert lsn !in w.futures;
    hide W.Inv;
  }

  /* ---------- A row that can be written ---------- */

  // Where the one row on its way is: queued, buffered or written.
  predicate OnItsWay(w: W.State, log: seq<Row>, r: Row)
  {
    || (w.log == log && w.queue == [r] && w.buf == [] && w.phase.Waiting? && r.lsn !in w.answers)
    || (w.log == log && w.queue == [] && w.buf == [r] && (w.phase.Waiting? || w.phase == W.Flushing(false))
        && r.lsn !in w.answers)
    || (w.log == log + [r] && w.queue == [] && w.buf == []
        && (w.phase.Waiting? || (w.phase == W.Answering(true, false) && r.lsn !in w.answers))
        && (r.lsn in w.answers ==> w.answers[r.lsn]))
  }

  lemma OnItsWayStep(w: W.State, e: W.Event, log: seq<Row>, r: Row)
    requires OnItsWay(w, log, r) && Marshalable(r) && W.Enabled(w, e) && D.Obeys(D.SegmentFiles, w, e)
    requires OurStep(e, r.lsn)
    ensures OnItsWay(W.Step(w, e), log, r)
  {
    D.EncodableRow(r);
    hide W.PutAll, Encodable, Marshalable;
  }

  lemma {:induction false} OnItsWayRun(w: W.State, events: seq<W.Event>, log: seq<Row>, r: Row)
    requires W.Inv(w) && OnlyOurs(w, r.lsn) && !w.cancelled && OnItsWay(w, log, r) && Marshalable(r)
    requires Legal(w, events) && Ours(events, r.lsn)
    ensures var t := W.After(w, events);
            && W.Inv(t) && OnlyOurs(t, r.lsn) && !t.cancelled && OnItsWay(t, log, r)
            && t.drawn == w.drawn && t.sent == w.sent && t.next == w.next
    decreases |events|
  {
    hide W.Step, W.Enabled, W.Inv, D.Obeys, OnItsWay, Marshalable;
    if events != [] {
      assert OurStep(events[0], r.lsn);
      OursStep(w, events[0], r.lsn);
      OnItsWayStep(w, events[0], log, r);
      OnItsWayRun(W.Step(w, events[0]), events[1..], log, r);
    }
  }

  /* ---------- A row that cannot, or comes after one ---------- */

  lemma StuckStep(w: W.State, e: W.Event, lsn: U64)
    requires W.Inv(w) && Stuck(w) && !D.ToldOk(w, lsn) && W.Enabled(w, e) && D.Obeys(D.SegmentFiles, w, e)
    ensures var t := W.Step(w, e);
            Stuck(t) && t.log == w.log && !D.ToldOk(t, lsn)
  {
    D.AheadStays(D.SegmentFiles, w, e);
    assert w.phase.Flushing? ==> !Encodable(w.buf);
    assert w.phase.Answering? ==> !w.phase.ok;
    hide W.PutAll, Encodable, W.FuturesOk, W.RowsOk;
  }

  lemma {:induction false} StuckRun(w: W.State, events: seq<W.Event>, lsn: U64)
    requires W.Inv(w) && OnlyOurs(w, lsn) && !w.cancelled && Stuck(w) && !D.ToldOk(w, lsn)
    requires Legal(w, events) && Ours(events, lsn)
    ensures var t := W.After(w, events);
            && W.Inv(t) && OnlyOurs(t, lsn) && !t.cancelled && Stuck(t) && !D.ToldOk(t, lsn)
            && t.log == w.log && t.drawn == w.drawn && t.sent == w.sent && t.next == w.next
    decreases |events|
  {
    hide W.Step, W.Enabled, W.Inv, D.Obeys, Stuck, D.ToldOk;
    if events != [] {
      assert OurStep(events[0], lsn);
      OursStep(w, events[0], lsn);
      StuckStep(w, events[0], lsn);
      StuckRun(W.Step(w, events[0]), events[1..], lsn);
    }
  }

  lemma {:induction false} ClearRun(w: W.State, events: seq<W.Event>)
    requires W.Clear(w) && W.Allowed(w, events) && W.Schedule(events) && NoCancel(events)
    ensures W.After(w, events) == w
    decreases |events|
  {
    if events != [] {
      assert W.ByWorker(events[0]) && !events[0].Cancel?;
      assert W.Step(w, events[0]) == w;
      hide W.Step, W.Enabled;
      ClearRun(w, events[1..]);
    }
  }

  /* ---------- A whole write ---------- */

  predicate Undisturbed(op: Op)
  {
    op.Command? ==> NoCancel(op.sending) && NoCancel(op.registering) && NoCancel(op.waiting)
  }

  // The write goes through: nothing is stuck ahead of it and it can be encoded.
  predicate GoesThrough(w: W.State, q: Query.Query)
  {
    W.Clear(w) && Marshalable(Row(0, q.methodId, q.args))
  }

  // What a write leaves: if it is answered, it is answered OK exactly when it goes through, it is logged exactly
  // then, and nothing of it is left on the way unless it is stuck; if it is not answered, its row may be in the log
  // all the same.
  predicate WriteEnds(w: W.State, op: Op)
    requires WriteAllowed(w, op)
  {
    var u, r, a := Waited(w, op), RowOf(w, op.q), WriteAnswer(w, op);
    && (a.Value? || a.Refused? ==>
          && r.lsn in u.answers && (a.Value? <==> D.ToldOk(u, r.lsn)) && (a.Value? <==> GoesThrough(w, op.q))
          && W.Inv(u) && !u.cancelled && u.drawn == map[] && u.unregistered == {} && u.futures == []
          && u.sent == w.sent + [r] && u.next == r.lsn
          && u.log == (if a.Value? then w.log + [r] else w.log)
          && (if a.Value? then W.Clear(u) else Stuck(u)))
    && (u.log == w.log || (GoesThrough(w, op.q) && u.log == w.log + [r]))
  }

  lemma DrawStep(w: W.State, op: Op)
    requires WriteAllowed(w, op)
    ensures W.Enabled(w, W.Draw(op.q.methodId, op.q.args))
    ensures var t := W.Step(w, W.Draw(op.q.methodId, op.q.args));
            Legal(t, op.sending) && W.After(t, op.sending) == W.After(w, Drawing(op))
  {
    hide W.Step, W.Enabled, D.Obeys;
    assert Drawing(op)[0] == W.Draw(op.q.methodId, op.q.args) && Drawing(op)[1..] == op.sending;
  }

  lemma SendStep(t: W.State, op: Op, lsn: U64)
    requires op.Command? && W.Enabled(t, W.Send(lsn)) && Legal(t, Sending(op, lsn))
    ensures var u, rest := W.Step(t, W.Send(lsn)), op.registering + [W.Register(lsn)] + op.waiting;
            Legal(u, rest) && W.After(u, rest) == W.After(t, Sending(op, lsn))
  {
    hide W.Step, W.Enabled, D.Obeys;
    var rest := op.registering + [W.Register(lsn)] + op.waiting;
    assert Sending(op, lsn)[0] == W.Send(lsn) && Sending(op, lsn)[1..] == rest;
  }

  lemma RestIsOurs(op: Op, lsn: U64)
    requires op.Command? && W.Schedule(op.registering) && W.Schedule(op.waiting) && Undisturbed(op)
    ensures Ours(op.registering + [W.Register(lsn)] + op.waiting, lsn)
  {
  }

  lemma SendingIsOurs(op: Op, lsn: U64)
    requires op.Command? && W.Schedule(op.sending) && Undisturbed(op)
    ensures Ours(op.sending, lsn)
  {
  }

  // A row drawn and not yet sent, in front of a clear or a stuck queue.
  lemma JustDrawn(w: W.State, op: Op) returns (t: W.State)
    requires Settled(w) && WriteAllowed(w, op) && Undisturbed(op)
    ensures var r := RowOf(w, op.q);
            && t == W.After(w, Drawing(op)) && W.Inv(t) && OnlyOurs(t, r.lsn) && !t.cancelled
            && t.drawn == map[r.lsn := r] && t.sent == w.sent && t.next == r.lsn && t.log == w.log
            && !D.ToldOk(t, r.lsn) && r.lsn !in t.answers
            && (W.Clear(w) ==> W.Clear(t)) && (Stuck(w) ==> Stuck(t))
  {
    var lsn, draw := RowOf(w, op.q).lsn, W.Draw(op.q.methodId, op.q.args);
    DrawStep(w, op);
    var w1 := W.Step(w, draw);
    assert lsn !in w.answers && w1.answers == w.answers;
    W.OneStepInv(w, draw);
    assert w1.drawn == map[lsn := RowOf(w, op.q)];
    assert D.Bound(w1) == D.Bound(w);
    SendingIsOurs(op, lsn);
    hide W.Inv, W.Step, W.Enabled, W.Allowed, W.After, D.WrittenBy, D.CanSucceed;
    t := W.After(w1, op.sending);
    if W.Clear(w) {
      ClearIsNotStuck(w);
      ClearRun(w1, op.sending);
    } else {
      StuckRun(w1, op.sending, lsn);
      StillUnanswered(t, lsn);
    }
  }

  // A row that is still to be sent has no answer.
  lemma StillUnanswered(w: W.State, lsn: U64)
    requires W.Inv(w) && lsn in w.drawn
    ensures lsn !in w.answers
  {
    assert W.OpenFuture(w, lsn);
    hide W.RowsOk, W.Conserved;
  }

  lemma OneRowStuck(u: W.State, r: Row)
    requires u.phase.Waiting? && u.buf == [] && u.queue == [r] && !Marshalable(r)
    ensures Stuck(u)
  {
    assert [r][0] == r;
  }

  lemma Sent(t: W.State, r: Row) returns (u: W.State)
    requires W.Inv(t) && OnlyOurs(t, r.lsn) && !t.cancelled && t.drawn == map[r.lsn := r] && r.lsn !in t.answers
    requires W.Enabled(t, W.Send(r.lsn)) && (W.Clear(t) || Stuck(t))
    ensures u == W.Step(t, W.Send(r.lsn)) && W.Inv(u) && OnlyOurs(u, r.lsn) && !u.cancelled && u.drawn == map[]
    ensures u.sent == t.sent + [r] && u.next == t.next && u.log == t.log && r.lsn !in u.answers
    ensures W.Clear(t) && Marshalable(r) ==> OnItsWay(u, t.log, r)
    ensures !(W.Clear(t) && Marshalable(r)) ==> Stuck(u)
  {
    hide W.Inv, Marshalable, Encodable, D.Bound;
    W.OneStepInv(t, W.Send(r.lsn));
    u := W.Step(t, W.Send(r.lsn));
    assert u.drawn == map[];
    if W.Clear(t) {
      assert u.queue == [r];
      if !Marshalable(r) {
        OneRowStuck(u, r);
      }
    } else {
      D.AheadStays(D.SegmentFiles, t, W.Send(r.lsn));
    }
  }

  // One write after others that were all answered, however the worker's steps fall.
  lemma OneWrite(w: W.State, op: Op)
    requires Settled(w) && WriteAllowed(w, op) && Undisturbed(op)
    ensures WriteEnds(w, op)
  {
    var r := RowOf(w, op.q);
    hide Marshalable, W.Inv, W.Step, W.Enabled, W.Allowed, W.After, D.WrittenBy, D.CanSucceed, OnItsWay;
    var t := JustDrawn(w, op);
    if W.Clear(t) {
      ClearIsNotStuck(t);
    }
    if W.Enabled(t, W.Send(r.lsn)) {
      var v := Sent(t, r);
      SendStep(t, op, r.lsn);
      SameEncoding(r);
      RestOfWrite(w, op, v);
    }
  }

  lemma SameEncoding(r: Row)
    ensures Marshalable(r) <==> Marshalable(Row(0, r.methodId, r.args))
  {
  }

  lemma RestOfWrite(w: W.State, op: Op, v: W.State)
    requires WriteAllowed(w, op) && Undisturbed(op) && (W.Clear(w) || Stuck(w))
    requires var r := RowOf(w, op.q);
             && W.Enabled(W.After(w, Drawing(op)), W.Send(r.lsn))
             && Legal(v, op.registering + [W.Register(r.lsn)] + op.waiting)
             && W.After(v, op.registering + [W.Register(r.lsn)] + op.waiting) == Waited(w, op)
             && W.Inv(v) && OnlyOurs(v, r.lsn) && !v.cancelled && v.drawn == map[] && v.sent == w.sent + [r]
             && v.next == r.lsn && v.log == w.log && r.lsn !in v.answers
             && (if GoesThrough(w, op.q) then OnItsWay(v, w.log, r) && Marshalable(r) else Stuck(v))
    ensures WriteEnds(w, op)
  {
    var r := RowOf(w, op.q);
    var rest := op.registering + [W.Register(r.lsn)] + op.waiting;
    var u := Waited(w, op);
    hide Marshalable, W.Inv, W.Step, W.Allowed, W.After, D.WrittenBy, Stuck, Waited, Ours, Legal, W.Schedule,
         Undisturbed, OnItsWay, IsWrite, WriteAllowed, WriteAnswer, W.Clear, WriteEnds, GoesThrough, OnlyOurs;
    RestIsOurs(op, r.lsn);
    if GoesThrough(w, op.q) {
      OnItsWayRun(v, rest, w.log, r);
      WhereItIs(u, w.log, r);
    } else {
      StuckRun(v, rest, r.lsn);
    }
    EndOfWrite(w, op);
  }

  lemma EndOfWrite(w: W.State, op: Op)
    requires WriteAllowed(w, op)
    requires var u, r := Waited(w, op), RowOf(w, op.q);
             && W.Inv(u) && OnlyOurs(u, r.lsn) && !u.cancelled && u.drawn == map[] && u.sent == w.sent + [r] &&
                u.next == r.lsn
             && (if GoesThrough(w, op.q)
                 then (u.log == w.log || u.log == w.log + [r]) &&
                      (r.lsn in u.answers ==> D.ToldOk(u, r.lsn) && u.log == w.log + [r] && W.Clear(u))
                 else u.log == w.log && Stuck(u) && !D.ToldOk(u, r.lsn))
    ensures WriteEnds(w, op)
  {
    var u, lsn := Waited(w, op), RowOf(w, op.q).lsn;
    hide Waited, W.Inv, W.Step, W.Allowed, W.After, D.WrittenBy, Stuck, IsWrite, GoesThrough, Legal, W.Schedule,
         W.Clear, OnlyOurs;
    if W.Enabled(u, W.Take(lsn)) {
      TakenAnswer(u, lsn);
      AnsweredIsGone(u, lsn);
    }
  }

  lemma WhereItIs(w: W.State, log: seq<Row>, r: Row)
    requires OnItsWay(w, log, r)
    ensures w.log == log || w.log == log + [r]
    ensures r.lsn in w.answers ==> D.ToldOk(w, r.lsn) && w.log == log + [r] && W.Clear(w)
  {
  }

  lemma TakenAnswer(u: W.State, lsn: U64)
    requires W.Inv(u) && W.Enabled(u, W.Take(lsn))
    ensures lsn in u.answers && u.replies[lsn].buffered[0] == u.answers[lsn]
  {
    hide W.FuturesOk, W.RowsOk;
  }

  /* ---------- A write that is answered ---------- */

  lemma LegalCons(v: W.State, e: W.Event, events: seq<W.Event>)
    requires W.Enabled(v, e) && D.Obeys(D.SegmentFiles, v, e) && Legal(W.Step(v, e), events)
    ensures Legal(v, [e] + events) && W.After(v, [e] + events) == W.After(W.Step(v, e), events)
  {
    hide W.Step, W.Enabled, D.Obeys;
    assert ([e] + events)[1..] == events;
  }

  // One way for the worker to get a lone row written and answered.
  function Prompt(batch: nat): (events: seq<W.Event>)
  {
    [W.Receive] + ((if batch <= 1 then [] else [W.Tick]) + ([W.WriteOk] + [W.Answer]))
  }

  lemma Flushed(w: W.State, r: Row)
    requires w.phase == W.Flushing(false) && w.buf == [r] && Marshalable(r) && w.futures == [r.lsn]
    requires r.lsn in w.replies && w.replies[r.lsn] == W.FRESH
    ensures Legal(w, [W.WriteOk] + [W.Answer]) && W.Enabled(W.After(w, [W.WriteOk] + [W.Answer]), W.Take(r.lsn))
  {
    var t := W.Step(w, W.WriteOk);
    D.EncodableRow(r);
    assert t.futures[0] == r.lsn;
    W.PutAllOnce(t.replies, t.futures, true, r.lsn);
    var u := W.Step(t, W.Answer);
    assert u.replies[r.lsn].buffered == [] + [true];
    assert W.Enabled(u, W.Take(r.lsn));
    hide W.Step, W.Enabled, Encodable;
    D.OneEvent(D.SegmentFiles, t, W.Answer);
    LegalCons(w, W.WriteOk, [W.Answer]);
  }

  lemma Received(w: W.State, r: Row)
    requires w.phase.Waiting? && w.queue == [r] && w.buf == [] && Marshalable(r) && w.futures == [r.lsn]
    requires r.lsn in w.replies && w.replies[r.lsn] == W.FRESH
    ensures Legal(w, Prompt(w.batch)) && W.Enabled(W.After(w, Prompt(w.batch)), W.Take(r.lsn))
  {
    var t := W.Step(w, W.Receive);
    assert t.buf == [r];
    if w.batch <= 1 {
      assert t.phase == W.Flushing(false);
      Flushed(t, r);
      assert [] + ([W.WriteOk] + [W.Answer]) == [W.WriteOk] + [W.Answer];
    } else {
      var u := W.Step(t, W.Tick);
      assert u.phase == W.Flushing(false);
      Flushed(u, r);
      hide W.Step, W.Enabled, W.Allowed, W.After, D.WrittenBy;
      LegalCons(t, W.Tick, [W.WriteOk] + [W.Answer]);
    }
    hide W.Step, W.Enabled, W.Allowed, W.After, D.WrittenBy, Marshalable;
    LegalCons(w, W.Receive, (if w.batch <= 1 then [] else [W.Tick]) + ([W.WriteOk] + [W.Answer]));
  }

  // Every write that goes through can be answered in time: its operation exists and ends with OK.
  lemma CanBeAnswered(w: W.State, q: Query.Query) returns (op: Op)
    requires Settled(w) && GoesThrough(w, q) && w.batch >= 1 && w.next < 0xFFFF_FFFF_FFFF_FFFF
    requires IsWrite(Row(0, q.methodId, q.args))
    ensures op.Command? && op.q == q && Undisturbed(op) && WriteAllowed(w, op) && WriteAnswer(w, op) == Value(OK_ANSWER)
  {
    op := Command(q, [], [], Prompt(w.batch));
    hide W.Inv, W.Allowed, W.After, D.WrittenBy, Marshalable, IsWrite, Stuck, W.Step, W.Enabled;
    var r, draw := RowOf(w, q), W.Draw(q.methodId, q.args);
    FreshDraw(w, draw, r);
    D.OneEvent(D.SegmentFiles, w, draw);
    assert Drawing(op) == [draw];
    SameEncoding(r);
    SentAndAnswered(W.Step(w, draw), op, r);
    assert WriteAllowed(w, op);
    hide Legal, W.Schedule;
    OneWrite(w, op);
  }

  lemma FreshDraw(w: W.State, draw: W.Event, r: Row)
    requires W.Clear(w) && w.drawn == map[] && w.futures == [] && w.next < 0xFFFF_FFFF_FFFF_FFFF
    requires draw.Draw? && r == D.DrawnRow(w.next + 1, draw)
    ensures W.Enabled(w, draw)
    ensures var t := W.Step(w, draw);
            && W.Clear(t) && t.batch == w.batch && t.futures == [] && t.drawn == map[r.lsn := r]
            && r.lsn in t.replies && t.replies[r.lsn] == W.FRESH
  {
  }

  lemma SentAndAnswered(w: W.State, op: Op, r: Row)
    requires op.Command? && op == Command(op.q, [], [], Prompt(w.batch)) && W.Clear(w) && w.batch >= 1 &&
             w.futures == [] && Marshalable(r)
    requires w.drawn == map[r.lsn := r] && r.lsn in w.replies && w.replies[r.lsn] == W.FRESH
    ensures W.Enabled(w, W.Send(r.lsn)) && Legal(w, Sending(op, r.lsn))
    ensures W.Enabled(W.After(w, Sending(op, r.lsn)), W.Take(r.lsn))
  {
    hide W.Allowed, W.After, D.WrittenBy, Marshalable, Legal, Prompt;
    var t := W.Step(w, W.Send(r.lsn));
    assert t.queue == [r];
    var u := W.Step(t, W.Register(r.lsn));
    assert u.futures == [r.lsn];
    Received(u, r);
    hide W.Step;
    LegalCons(t, W.Register(r.lsn), Prompt(w.batch));
    LegalCons(w, W.Send(r.lsn), [W.Register(r.lsn)] + Prompt(w.batch));
    assert [] + [W.Register(r.lsn)] + Prompt(w.batch) == [W.Register(r.lsn)] + Prompt(w.batch);
  }

  /* ---------- Operations as runs of commands ---------- */

  // Every operation, answered or not, is a run of the machine of Commands.dfy.
  lemma OpIsARun(s: C.State, op: Op) returns (events: seq<C.Event>)
    requires C.Inv(s) && OpAllowed(s, op)
    ensures C.Allowed(s, events) && C.After(s, events) == OpStep(s, op)
  {
    if op.Crash? {
      events := [C.Crash];
      C.OneEvent(s, C.Crash);
    } else if op.q.methodId == GET {
      events := [];
    } else {
      events := WriteIsARun(s, op);
    }
  }

  lemma DrawingLegal(s: C.State, op: Op)
    requires WriteAllowed(s.worker, op)
    ensures C.DrawsWrites(Drawing(op)) && C.DrawsWrites(Sending(op, s.worker.next + 1))
  {
    assert forall i :: 0 < i < |Drawing(op)| ==> Drawing(op)[i] == op.sending[i - 1];
    var rest := op.registering + [W.Register(s.worker.next + 1)] + op.waiting;
    assert forall i :: 0 <= i < |rest| ==> W.ByWorker(rest[i]) || rest[i].Register?;
    hide IsWrite;
  }

  lemma WaitIsARun(s: C.State, op: Op) returns (events: seq<C.Event>)
    requires WriteAllowed(s.worker, op)
    ensures C.Allowed(s, events) && C.After(s, events) == s.(worker := Waited(s.worker, op))
  {
    var lsn := s.worker.next + 1;
    DrawingLegal(s, op);
    hide W.Step, W.Enabled, W.Allowed, W.After, D.WrittenBy, C.Step, C.Enabled, C.Allowed, C.After, IsWrite,
         C.DrawsWrites;
    C.LiftedRun(s, Drawing(op));
    events := C.Lifted(Drawing(op));
    var t := s.(worker := W.After(s.worker, Drawing(op)));
    if W.Enabled(t.worker, W.Send(lsn)) {
      C.LiftedRun(t, Sending(op, lsn));
      C.RunsCompose(s, events, C.Lifted(Sending(op, lsn)));
      events := events + C.Lifted(Sending(op, lsn));
    }
  }

  lemma WriteStep(s: C.State, op: Op)
    requires OpAllowed(s, op) && op.Command? && op.q.methodId != GET
    ensures WriteAllowed(s.worker, op)
    ensures var u, r, a := Waited(s.worker, op), RowOf(s.worker, op.q), WriteAnswer(s.worker, op);
            && (a.Value? || a.Refused? ==> W.Enabled(u, W.Take(r.lsn)) && (a.Value? <==> u.replies[r.lsn].buffered[0]))
            && IsWrite(r)
            && OpStep(s, op) == (if a.Value? then C.State(W.Step(u, W.Take(r.lsn)), Apply(s.store, r), s.applied + [r])
                                 else if a.Refused? then s.(worker := W.Step(u, W.Take(r.lsn)))
                                 else s.(worker := u))
  {
    hide W.Step, W.Allowed, W.After, D.WrittenBy, Waited;
  }

  // What a client sees of a command, by method id: GET answers the value, or nothing, and leaves the store alone; SET
  // and DEL are carried out exactly when the answer is "OK".
  lemma ClientSees(s: C.State, op: Op)
    requires OpAllowed(s, op) && op.Command?
    ensures var key, a, t := op.q.args[0], OpAnswer(s, op), OpStep(s, op).store;
            && op.q.methodId in {0, 1, 2}
            && (op.q.methodId == 1 ==> t == s.store && a == Value(if key in s.store then s.store[key] else []))
            && (op.q.methodId != 1 && !a.Value? ==> t == s.store)
            && (op.q.methodId != 1 && a.Value? ==>
                  && a == Value([79, 75])
                  && t == if op.q.methodId == 0 then s.store[key := op.q.args[1]] else s.store - {key})
  {
    hide W.Step, W.Enabled, W.Allowed, W.After, D.WrittenBy, Waited;
    if op.q.methodId != 1 {
      WriteStep(s, op);
    }
  }

  predicate Holding(w: W.State, lsn: U64, ok: bool)
  {
    lsn in w.replies && w.replies[lsn].buffered == [ok]
  }

  // Which answer a write gets: it blocks exactly when the queue is full as it comes to send, and otherwise hears what
  // lies in its future when the wait ends.
  lemma AnswerExactlyWhen(s: C.State, op: Op)
    requires C.Inv(s) && OpAllowed(s, op) && op.Command? && op.q.methodId != 1
    ensures WriteAllowed(s.worker, op)
    ensures var t, u, lsn := W.After(s.worker, Drawing(op)), Waited(s.worker, op), s.worker.next + 1;
            var a, sent := OpAnswer(s, op), |t.queue| < t.batch;
            && (a == Blocked <==> !sent)
            && (a == Value([79, 75]) <==> sent && Holding(u, lsn, true))
            && (a == Refused <==> sent && Holding(u, lsn, false))
            && (a == TimedOut <==> sent && !Holding(u, lsn, true) && !Holding(u, lsn, false))
  {
    var w, lsn := s.worker, s.worker.next + 1;
    WriteStep(s, op);
    DrawnBefore(w, op);
    hide W.Step, W.Allowed, W.After, D.WrittenBy, W.Inv, OpStep, Run, AllWrites, Apply, IsWrite, W.Schedule, Drawing,
         Sending, Holding;
    W.RunInv(w, Drawing(op));
    var t := W.After(w, Drawing(op));
    if W.Enabled(t, W.Send(lsn)) {
      W.RunInv(t, Sending(op, lsn));
      HoldsOne(Waited(w, op), lsn);
    }
  }

  lemma HoldsOne(u: W.State, lsn: U64)
    requires W.Inv(u)
    ensures !(Holding(u, lsn, true) && Holding(u, lsn, false))
    ensures forall ok :: Holding(u, lsn, ok) <==> W.Enabled(u, W.Take(lsn)) && u.replies[lsn].buffered[0] == ok
  {
    hide W.FuturesOk, W.RowsOk, W.PhaseOk, W.Conserved;
  }

  lemma WriteIsARun(s: C.State, op: Op) returns (events: seq<C.Event>)
    requires C.Inv(s) && OpAllowed(s, op) && op.Command? && op.q.methodId != GET
    ensures C.Allowed(s, events) && C.After(s, events) == OpStep(s, op)
  {
    WriteStep(s, op);
    var r, a := RowOf(s.worker, op.q), WriteAnswer(s.worker, op);
    hide W.Step, W.Enabled, W.Allowed, W.After, D.WrittenBy, C.Step, C.Enabled, C.Allowed, C.After, C.Inv, Waited,
         Apply, OpStep, OpAllowed, WriteAllowed, WriteAnswer, IsWrite;
    events := WaitIsARun(s, op);
    var t := C.After(s, events);
    if a.Value? || a.Refused? {
      C.RunInv(s, events);
      var taken := TakeIsAStep(t, r.lsn);
      C.RunsCompose(s, events, [C.Worker(W.Take(r.lsn))]);
      events := events + [C.Worker(W.Take(r.lsn))];
      if a.Value? {
        ApplyIsAStep(s, op, t, taken);
        C.RunsCompose(s, events, [C.Apply(r)]);
        events := events + [C.Apply(r)];
      }
    }
  }

  lemma TakeIsAStep(t: C.State, lsn: U64) returns (u: C.State)
    requires C.Inv(t) && W.Enabled(t.worker, W.Take(lsn))
    ensures u == t.(worker := W.Step(t.worker, W.Take(lsn))) && C.Inv(u)
    ensures C.Allowed(t, [C.Worker(W.Take(lsn))]) && C.After(t, [C.Worker(W.Take(lsn))]) == u
    ensures u.worker.answers == t.worker.answers && u.worker.sent == t.worker.sent
    ensures lsn in t.worker.answers && t.worker.replies[lsn].buffered[0] == t.worker.answers[lsn]
  {
    TakenAnswer(t.worker, lsn);
    C.StepInv(t, C.Worker(W.Take(lsn)));
    C.OneEvent(t, C.Worker(W.Take(lsn)));
    u := t.(worker := W.Step(t.worker, W.Take(lsn)));
    hide C.Inv, W.Inv;
  }

  lemma {:induction false} ScheduleKeepsDrawn(w: W.State, events: seq<W.Event>)
    requires W.Allowed(w, events) && W.Schedule(events)
    ensures W.After(w, events).drawn == w.drawn
    decreases |events|
  {
    if events != [] {
      assert W.ByWorker(events[0]);
      assert W.Step(w, events[0]).drawn == w.drawn;
      hide W.Step, W.Enabled;
      ScheduleKeepsDrawn(W.Step(w, events[0]), events[1..]);
    }
  }

  lemma DrawnBefore(w: W.State, op: Op)
    requires WriteAllowed(w, op)
    ensures w.next + 1 in W.After(w, Drawing(op)).drawn
  {
    DrawStep(w, op);
    ScheduleKeepsDrawn(W.Step(w, W.Draw(op.q.methodId, op.q.args)), op.sending);
  }

  lemma RowIsSent(w: W.State, op: Op)
    requires WriteAllowed(w, op) && W.Enabled(W.After(w, Drawing(op)), W.Send(w.next + 1))
    ensures RowOf(w, op.q) in Waited(w, op).sent
  {
    var r, draw := RowOf(w, op.q), W.Draw(op.q.methodId, op.q.args);
    DrawStep(w, op);
    var w1 := W.Step(w, draw);
    assert w1.drawn[r.lsn] == r;
    ScheduleKeepsDrawn(w1, op.sending);
    var t := W.After(w, Drawing(op));
    SendStep(t, op, r.lsn);
    var u := W.Step(t, W.Send(r.lsn));
    assert u.sent == t.sent + [r] && u.sent[|t.sent|] == r;
    hide W.Step, W.Enabled, W.Allowed, W.After, D.WrittenBy;
    W.SentGrows(u, op.registering + [W.Register(r.lsn)] + op.waiting);
    assert r in u.sent;
  }

  // What was applied before carries an earlier LSN.
  lemma NotYetApplied(s: C.State, r: Row)
    requires C.Inv(s) && r.lsn > s.worker.next
    ensures r !in s.applied
  {
    hide W.FuturesOk, W.PhaseOk, W.RepliesOk, AllWrites, Run;
    var w := s.worker;
    forall i | 0 <= i < |s.applied| ensures s.applied[i].lsn <= w.next {
      if s.applied[i] in w.log {
        var k :| 0 <= k < |w.log| && w.log[k] == s.applied[i];
        assert w.sent[k] == w.log[k];
      } else {
        assert W.Has(w.sent, s.applied[i].lsn);
      }
    }
  }

  lemma ApplyIsAStep(s: C.State, op: Op, t: C.State, u: C.State)
    requires C.Inv(s) && OpAllowed(s, op) && op.Command? && op.q.methodId != GET && WriteAnswer(s.worker, op).Value?
    requires t == s.(worker := Waited(s.worker, op)) && u.applied == t.applied
    requires u.worker.answers == t.worker.answers && u.worker.sent == t.worker.sent
    requires var lsn := s.worker.next + 1;
             W.Enabled(t.worker, W.Take(lsn)) && lsn in t.worker.answers &&
             t.worker.replies[lsn].buffered[0] == t.worker.answers[lsn]
    ensures var r := RowOf(s.worker, op.q);
            C.Allowed(u, [C.Apply(r)]) &&
            IsWrite(r) && C.After(u, [C.Apply(r)]) == C.State(u.worker, Apply(u.store, r), u.applied + [r])
  {
    hide C.Inv, W.Allowed, W.After, D.WrittenBy, Waited, W.Step, Legal, W.Schedule;
    var r := RowOf(s.worker, op.q);
    RowIsSent(s.worker, op);
    NotYetApplied(s, r);
    C.OneEvent(u, C.Apply(r));
  }

  lemma OpStepInv(s: C.State, op: Op)
    requires C.Inv(s) && OpAllowed(s, op)
    ensures C.Inv(OpStep(s, op))
  {
    hide C.Inv, OpStep, C.Allowed, C.After, OpAllowed;
    var events := OpIsARun(s, op);
    C.RunInv(s, events);
  }

  /* ---------- Whole runs ---------- */

  predicate OpsAllowed(s: C.State, ops: seq<Op>)
    decreases |ops|
  {
    ops == [] || (OpAllowed(s, ops[0]) && OpsAllowed(OpStep(s, ops[0]), ops[1..]))
  }

  function AfterOps(s: C.State, ops: seq<Op>): (t: C.State)
    requires OpsAllowed(s, ops)
    decreases |ops|
  {
    if ops == [] then s else AfterOps(OpStep(s, ops[0]), ops[1..])
  }

  lemma {:induction false} OpsAreARun(s: C.State, ops: seq<Op>) returns (events: seq<C.Event>)
    requires C.Inv(s) && OpsAllowed(s, ops)
    ensures C.Allowed(s, events) && C.After(s, events) == AfterOps(s, ops)
    decreases |ops|
  {
    hide C.Inv, OpStep, C.Step, C.Enabled, OpAllowed;
    if ops == [] {
      events := [];
    } else {
      var first := OpIsARun(s, ops[0]);
      OpStepInv(s, ops[0]);
      var rest := OpsAreARun(OpStep(s, ops[0]), ops[1..]);
      C.RunsCompose(s, first, rest);
      events := first + rest;
    }
  }

  // Every write is answered before its deadline, and nobody cancels the worker.
  predicate Answered(s: C.State, ops: seq<Op>)
    requires OpsAllowed(s, ops)
    decreases |ops|
  {
    ops == [] ||
    (&& Undisturbed(ops[0])
     && (ops[0].Command? ==> OpAnswer(s, ops[0]).Value? || OpAnswer(s, ops[0]).Refused?)
     && Answered(OpStep(s, ops[0]), ops[1..]))
  }

  // A node between commands that were all answered: the store is the replay of the log, whose LSNs are 1..n.
  predicate NodeOk(s: C.State)
  {
    && C.Inv(s) && Settled(s.worker) && s.applied == s.worker.log
    && Numbered(s.worker.sent) && s.worker.next == |s.worker.sent|
  }

  lemma NodeMeans(s: C.State)
    requires NodeOk(s)
    ensures AllWrites(s.worker.log) && s.store == Run(map[], s.worker.log) && Numbered(s.worker.log)
  {
    hide Run, W.FuturesOk, W.RowsOk;
    assert forall i :: 0 <= i < |s.worker.log| ==> s.worker.log[i] == s.worker.sent[i];
  }

  lemma TakeKeepsSettled(u: W.State, lsn: U64)
    requires W.Inv(u) && !u.cancelled && u.drawn == map[] && u.unregistered == {} && u.futures == []
    requires (W.Clear(u) || Stuck(u)) && W.Enabled(u, W.Take(lsn))
    ensures var t := W.Step(u, W.Take(lsn));
            && Settled(t) && t.log == u.log && t.sent == u.sent && t.next == u.next
            && (W.Clear(t) <==> W.Clear(u))
  {
    W.OneStepInv(u, W.Take(lsn));
    assert D.Bound(W.Step(u, W.Take(lsn))) == D.Bound(u);
    hide W.Inv;
  }

  lemma CommandOk(s: C.State, op: Op)
    requires NodeOk(s) && OpAllowed(s, op) && op.Command? && op.q.methodId != GET && Undisturbed(op)
    requires OpAnswer(s, op).Value? || OpAnswer(s, op).Refused?
    ensures var t, r := OpStep(s, op), RowOf(s.worker, op.q);
            && NodeOk(t)
            && t.worker.log == (if GoesThrough(s.worker, op.q) then s.worker.log + [r] else s.worker.log)
            && (W.Clear(t.worker) <==> GoesThrough(s.worker, op.q))
  {
    hide W.Inv, W.Step, W.Enabled, W.Allowed, W.After, D.WrittenBy, Waited, C.Inv, GoesThrough, Stuck, OpStep,
         WriteAllowed, WriteAnswer, W.Clear, Numbered, Apply, Undisturbed, IsWrite, D.ToldOk;
    WriteStep(s, op);
    var w, r := s.worker, RowOf(s.worker, op.q);
    OpStepInv(s, op);
    OneWrite(w, op);
    var u := Waited(w, op);
    if W.Clear(u) {
      ClearIsNotStuck(u);
    }
    TakeKeepsSettled(u, r.lsn);
    NumberedMore(w.sent, r);
  }

  lemma NumberedMore(log: seq<Row>, row: Row)
    requires Numbered(log) && row.lsn == |log| + 1
    ensures Numbered(log + [row])
  {
  }

  lemma CrashOk(s: C.State)
    requires NodeOk(s) && OpAllowed(s, Crash)
    ensures var t := OpStep(s, Crash);
            NodeOk(t) && t.worker.log == s.worker.log && W.Clear(t.worker)
  {
    hide C.Inv, Run, W.Inv, Numbered, AllWrites, W.MaxLsn, AllFit, Stuck;
    NodeMeans(s);
    MaxLsnOfNumbered(s.worker.log);
    OpStepInv(s, Crash);
    C.LogStartable(s.worker);
    W.StartInv(s.worker.batch, s.worker.log);
  }

  // The writes that get through: all of them, except that one which cannot be encoded blocks itself and every later
  // one until the next crash.
  function Accepted(blocked: bool, ops: seq<Op>): (qs: seq<Query.Query>)
    decreases |ops|
  {
    if ops == [] then []
    else if ops[0].Crash? then Accepted(false, ops[1..])
    else
      var q := ops[0].q;
      if q.methodId == GET then Accepted(blocked, ops[1..])
      else if blocked || !Marshalable(Row(0, q.methodId, q.args)) then Accepted(true, ops[1..])
      else [q] + Accepted(false, ops[1..])
  }

  // Beyond its first `base` rows the log holds exactly these commands, in order.
  predicate Holds(log: seq<Row>, base: nat, qs: seq<Query.Query>)
  {
    && |log| == base + |qs|
    && forall i :: 0 <= i < |qs| ==> log[base + i].methodId == qs[i].methodId && log[base + i].args == qs[i].args
  }

  lemma OneOp(s: C.State, op: Op, rest: seq<Op>) returns (first: seq<Query.Query>)
    requires NodeOk(s) && OpAllowed(s, op) && Undisturbed(op)
    requires op.Command? ==> OpAnswer(s, op).Value? || OpAnswer(s, op).Refused?
    ensures var t := OpStep(s, op);
            && NodeOk(t) && s.worker.log <= t.worker.log && Holds(t.worker.log, |s.worker.log|, first)
            && Accepted(!W.Clear(s.worker), [op] + rest) == first + Accepted(!W.Clear(t.worker), rest)
  {
    hide NodeOk, Marshalable, OpAllowed, W.Clear, C.Step, WriteAllowed, WriteAnswer;
    assert ([op] + rest)[0] == op && ([op] + rest)[1..] == rest;
    first := [];
    if op.Crash? {
      CrashOk(s);
    } else if op.q.methodId != GET {
      hide OpStep;
      CommandOk(s, op);
      if GoesThrough(s.worker, op.q) {
        first := [op.q];
      }
    }
  }

  lemma HoldsMore(log: seq<Row>, more: seq<Row>, base: nat, a: seq<Query.Query>, b: seq<Query.Query>)
    requires log <= more && Holds(log, base, a) && Holds(more, |log|, b)
    ensures Holds(more, base, a + b)
  {
    forall i | 0 <= i < |a + b|
      ensures more[base + i].methodId == (a + b)[i].methodId && more[base + i].args == (a + b)[i].args
    {
      if i < |a| {
        assert more[base + i] == log[base + i];
      } else {
        assert more[base + i] == more[|log| + (i - |a|)];
      }
    }
  }

  // Durability across restarts: after any commands that were all answered, and any clean crashes, the log holds exactly
  // the writes accepted, with the LSNs 1..n in order, and the store is their replay.
  lemma {:induction false} DurableAcrossRestarts(s: C.State, ops: seq<Op>)
    requires NodeOk(s) && OpsAllowed(s, ops) && Answered(s, ops)
    ensures var t := AfterOps(s, ops);
            && NodeOk(t) && AllWrites(t.worker.log) && t.store == Run(map[], t.worker.log) && Numbered(t.worker.log)
            && s.worker.log <= t.worker.log && Holds(t.worker.log, |s.worker.log|, Accepted(!W.Clear(s.worker), ops))
    decreases |ops|
  {
    hide NodeOk, OpStep, OpAllowed, Accepted, Holds, Numbered, Run, AllWrites, OpAnswer, W.Clear;
    if ops == [] {
      NodeMeans(s);
      NothingMore(s);
    } else {
      var t, rest := OpStep(s, ops[0]), ops[1..];
      var first := OneOp(s, ops[0], rest);
      DurableAcrossRestarts(t, rest);
      assert [ops[0]] + rest == ops;
      HoldsMore(t.worker.log, AfterOps(t, rest).worker.log, |s.worker.log|, first, Accepted(!W.Clear(t.worker), rest));
    }
  }

  lemma NothingMore(s: C.State)
    ensures Holds(s.worker.log, |s.worker.log|, Accepted(!W.Clear(s.worker), []))
  {
  }

  // With timeouts: everything `Commands.Described` says of a run holds after any operations. The rows sent are the log,
  // the buffer and the queue; the store is the replay of the rows told OK in time, which need not be the log; a crash
  // makes it the replay of the log.
  lemma EveryRunOfOps(s: C.State, ops: seq<Op>)
    requires C.Inv(s) && OpsAllowed(s, ops)
    ensures C.Described(AfterOps(s, ops))
  {
    hide OpsAllowed, AfterOps, C.Allowed, C.After, C.Described, C.Inv;
    var events := OpsAreARun(s, ops);
    C.RunInv(s, events);
    C.InvDescribes(AfterOps(s, ops));
  }

  // The first start, from which all this can be said.
  lemma FirstNodeOk(batch: nat)
    ensures NodeOk(C.Started(batch, []))
  {
    W.StartInv(batch, []);
    C.StartedInv(batch, []);
    hide C.Inv, W.Inv, Run;
  }

  lemma NotSent(w: W.State, op: Op)
    requires op.Command? && w.next < 0xFFFF_FFFF_FFFF_FFFF && IsWrite(Row(0, op.q.methodId, op.q.args))
    requires W.Schedule(op.sending) && op.registering == [] && op.waiting == [] && Legal(w, Drawing(op))
    requires !W.Enabled(W.After(w, Drawing(op)), W.Send(w.next + 1))
    ensures WriteAllowed(w, op) && Waited(w, op) == W.After(w, Drawing(op)) && WriteAnswer(w, op) == Blocked
  {
    hide W.Step, W.Enabled, W.After, W.Allowed, D.WrittenBy, IsWrite;
  }

  lemma WasSent(w: W.State, drawn: W.State, op: Op)
    requires op.Command? && w.next < 0xFFFF_FFFF_FFFF_FFFF && IsWrite(Row(0, op.q.methodId, op.q.args))
    requires W.Schedule(op.sending) && W.Schedule(op.registering) && W.Schedule(op.waiting)
    requires Legal(w, Drawing(op)) && drawn == W.After(w, Drawing(op))
    requires W.Enabled(drawn, W.Send(w.next + 1)) && Legal(drawn, Sending(op, w.next + 1))
    ensures WriteAllowed(w, op)
    ensures var u, lsn := W.After(drawn, Sending(op, w.next + 1)), w.next + 1;
            && Waited(w, op) == u
            && WriteAnswer(w, op) == (if !W.Enabled(u, W.Take(lsn)) then TimedOut
                                      else if u.replies[lsn].buffered[0] then Value(OK_ANSWER) else Refused)
  {
    hide W.Step, W.After, W.Allowed, D.WrittenBy, IsWrite;
  }

  lemma WriteOp(s: C.State, op: Op)
    requires op.Command? && op.q.methodId != GET && IsCommand(op.q) && WriteAllowed(s.worker, op)
    ensures OpAllowed(s, op) && OpAnswer(s, op) == WriteAnswer(s.worker, op)
    ensures var u, r, a := Waited(s.worker, op), RowOf(s.worker, op.q), WriteAnswer(s.worker, op);
            && (a.Value? || a.Refused? ==> W.Enabled(u, W.Take(r.lsn))) && IsWrite(r)
            && OpStep(s, op) == (if a.Value? then C.State(W.Step(u, W.Take(r.lsn)), Apply(s.store, r), s.applied + [r])
                                 else if a.Refused? then s.(worker := W.Step(u, W.Take(r.lsn)))
                                 else s.(worker := u))
  {
    WriteStep(s, op);
  }

  /* ---------- What a timeout can do to the next command ---------- */

  lemma WritesAfterSending(w: W.State, op: Op, t: W.State, lsn: U64)
    requires WriteAllowed(w, op) && t == W.After(w, Drawing(op)) && lsn == w.next + 1 && W.Inv(t)
    requires W.Enabled(t, W.Send(lsn)) && D.SafeToSend(D.SegmentFiles, t) && WriteAnswer(w, op).Value?
    ensures W.Has(Waited(w, op).log, lsn)
  {
    hide W.Step, W.Enabled, W.Allowed, W.After, D.WrittenBy, D.Covered, W.Inv, D.SafeToSend, W.Has, IsWrite, W.Schedule;
    var v, u := W.Step(t, W.Send(lsn)), Waited(w, op);
    var rest := op.registering + [W.Register(lsn)] + op.waiting;
    SendStep(t, op, lsn);
    D.SafeSendIsCovered(D.SegmentFiles, t, lsn);
    W.OneStepInv(t, W.Send(lsn));
    D.CoveredRun(D.SegmentFiles, v, rest, lsn);
    W.RunInv(v, rest);
    TakenAnswer(u, lsn);
  }

  lemma FalseWrite(w: W.State, q: Query.Query, sending: seq<W.Event>, t: W.State, lsn: U64) returns (op: Op)
    requires w.next < 0xFFFF_FFFF_FFFF_FFFF && lsn == w.next + 1 && IsWrite(Row(0, q.methodId, q.args)) && W.Inv(t)
    requires W.Schedule(sending) && Legal(w, Drawing(Command(q, sending, [], [])))
    requires t == W.After(w, Drawing(Command(q, sending, [], [])))
    requires W.Enabled(t, W.Send(lsn)) && !D.SafeToSend(D.SegmentFiles, t)
    ensures op.Command? && op.q == q && op.sending == sending && WriteAllowed(w, op)
    ensures WriteAnswer(w, op).Value? && !W.Has(Waited(w, op).log, lsn)
  {
    hide W.Step, W.Inv, W.Enabled, W.Allowed, W.After, D.WrittenBy, IsWrite, W.Has, Legal, D.SafeToSend, D.Misleads,
         Waited, WriteAllowed, WriteAnswer;
    var a, b := D.UnsafeSend(D.SegmentFiles, t, lsn);
    op := Command(q, sending, a, b);
    assert Drawing(op) == Drawing(Command(q, sending, [], []));
    MisleadingIsLegal(W.Step(t, W.Send(lsn)), lsn, a, b);
    LegalCons(t, W.Send(lsn), a + [W.Register(lsn)] + b);
    WasSent(w, t, op);
  }

  lemma MisleadingIsLegal(v: W.State, lsn: U64, a: seq<W.Event>, b: seq<W.Event>)
    requires D.Misleads(D.SegmentFiles, v, lsn, a, b)
    ensures var events := a + [W.Register(lsn)] + b;
            W.Schedule(a) && W.Schedule(b) && Legal(v, events) && W.Enabled(W.After(v, events), W.Take(lsn)) &&
            W.After(v, events).replies[lsn].buffered[0] && !W.Has(W.After(v, events).log, lsn)
  {
    hide W.Allowed, W.After, D.WrittenBy, W.Has;
  }

  // The command, begun like this, is answered OK.
  predicate SaysOk(w: W.State, op: Op, q: Query.Query, sending: seq<W.Event>)
  {
    op.Command? && op.q == q && op.sending == sending && WriteAllowed(w, op) && WriteAnswer(w, op).Value?
  }

  // The exact condition of `Durability.SendIsSafeExactlyWhen` for one command: whatever the worker does from its send
  // on, an OK means that the row is in the log, if and only if the send is safe.
  lemma WriteIsSafeExactlyWhen(w: W.State, q: Query.Query, sending: seq<W.Event>)
    requires W.Inv(w) && w.next < 0xFFFF_FFFF_FFFF_FFFF && IsWrite(Row(0, q.methodId, q.args))
    requires W.Schedule(sending) && Legal(w, Drawing(Command(q, sending, [], [])))
    requires W.Enabled(W.After(w, Drawing(Command(q, sending, [], []))), W.Send(w.next + 1))
    ensures (forall op :: SaysOk(w, op, q, sending) ==> W.Has(Waited(w, op).log, w.next + 1))
            <==> D.SafeToSend(D.SegmentFiles, W.After(w, Drawing(Command(q, sending, [], []))))
  {
    hide W.Step, W.Enabled, W.Allowed, W.After, D.WrittenBy, W.Inv, D.SafeToSend, W.Has, IsWrite, Legal, WriteAllowed,
         WriteAnswer, Waited;
    var lsn, events := w.next + 1, Drawing(Command(q, sending, [], []));
    LegalRunInv(w, events);
    var t := W.After(w, events);
    if D.SafeToSend(D.SegmentFiles, t) {
      forall op | SaysOk(w, op, q, sending)
        ensures W.Has(Waited(w, op).log, lsn)
      {
        assert Drawing(op) == events;
        WritesAfterSending(w, op, t, lsn);
      }
    } else {
      var op := FalseWrite(w, q, sending, t, lsn);
      assert SaysOk(w, op, q, sending);
    }
  }

  lemma LegalRunInv(w: W.State, events: seq<W.Event>)
    requires W.Inv(w) && Legal(w, events)
    ensures W.Allowed(w, events) && W.Inv(W.After(w, events))
  {
    hide W.Inv, W.Allowed, W.After, D.WrittenBy;
    W.RunInv(w, events);
  }

  // Draw and send, from a state where nothing hinders it.
  lemma BeginsAndSends(w: W.State, q: Query.Query, r: Row) returns (t: W.State, u: W.State)
    requires w.next < 0xFFFF_FFFF_FFFF_FFFF && r == RowOf(w, q) && w.drawn == map[] && w.unregistered == {}
    requires |w.queue| < w.batch
    ensures Legal(w, Drawing(Command(q, [], [], []))) && t == W.After(w, Drawing(Command(q, [], [], [])))
    ensures W.Enabled(t, W.Send(r.lsn)) && D.Obeys(D.SegmentFiles, t, W.Send(r.lsn)) && t.log == w.log
    ensures W.Enabled(W.Step(t, W.Send(r.lsn)), W.Register(r.lsn))
    ensures u == W.Step(W.Step(t, W.Send(r.lsn)), W.Register(r.lsn))
    ensures u == w.(next := r.lsn, queue := w.queue + [r], futures := w.futures + [r.lsn],
                    replies := w.replies[r.lsn := W.FRESH], sent := w.sent + [r])
  {
    var draw := W.Draw(q.methodId, q.args);
    t := W.Step(w, draw);
    assert t.drawn == map[r.lsn := r];
    D.OneEvent(D.SegmentFiles, w, draw);
    assert Drawing(Command(q, [], [], [])) == [draw];
    hide W.Allowed, W.After, D.WrittenBy;
    var v := W.Step(t, W.Send(r.lsn));
    assert v.drawn == map[] && v.unregistered == {r.lsn};
    u := W.Step(v, W.Register(r.lsn));
    assert u.unregistered == {};
  }

  // A command whose worker does this much while it waits.
  lemma SentThen(w: W.State, q: Query.Query, waiting: seq<W.Event>, t: W.State, u: W.State, r: Row)
    requires w.next < 0xFFFF_FFFF_FFFF_FFFF && r == RowOf(w, q) && IsWrite(Row(0, q.methodId, q.args))
    requires Legal(w, Drawing(Command(q, [], [], []))) && t == W.After(w, Drawing(Command(q, [], [], [])))
    requires W.Enabled(t, W.Send(r.lsn)) && D.Obeys(D.SegmentFiles, t, W.Send(r.lsn))
    requires W.Enabled(W.Step(t, W.Send(r.lsn)), W.Register(r.lsn))
    requires u == W.Step(W.Step(t, W.Send(r.lsn)), W.Register(r.lsn)) && Legal(u, waiting) && W.Schedule(waiting)
    ensures var op := Command(q, [], [], waiting);
            && WriteAllowed(w, op) && Waited(w, op) == W.After(u, waiting)
            && WriteAnswer(w, op) == (if !W.Enabled(W.After(u, waiting), W.Take(r.lsn)) then TimedOut
                                      else if W.After(u, waiting).replies[r.lsn].buffered[0] then Value(OK_ANSWER)
                                      else Refused)
  {
    var op := Command(q, [], [], waiting);
    assert D.Obeys(D.SegmentFiles, W.Step(t, W.Send(r.lsn)), W.Register(r.lsn));
    hide W.Step, W.Enabled, W.Allowed, W.After, D.WrittenBy, IsWrite, Legal, Waited, WriteAllowed, WriteAnswer, D.Obeys;
    LegalCons(W.Step(t, W.Send(r.lsn)), W.Register(r.lsn), waiting);
    assert [] + [W.Register(r.lsn)] + waiting == [W.Register(r.lsn)] + waiting;
    LegalCons(t, W.Send(r.lsn), [W.Register(r.lsn)] + waiting);
    assert Drawing(op) == Drawing(Command(q, [], [], []));
    assert Sending(op, r.lsn) == [W.Send(r.lsn)] + ([W.Register(r.lsn)] + waiting);
    WasSent(w, t, op);
  }

  lemma FirstTimesOut(q: Query.Query, w: W.State, r: Row) returns (u: W.State)
    requires w == W.Start(1, []) && IsWrite(Row(0, q.methodId, q.args)) && r == Row(1, q.methodId, q.args)
    ensures var op := Command(q, [], [], [W.Receive]);
            WriteAllowed(w, op) && Waited(w, op) == u && WriteAnswer(w, op) == TimedOut
    ensures u == w.(next := 1, buf := [r], futures := [1], replies := map[1 := W.FRESH], sent := [r],
                    phase := W.Flushing(false))
  {
    hide IsWrite, Waited, WriteAllowed, WriteAnswer, Legal;
    var t, v := BeginsAndSends(w, q, r);
    u := W.Step(v, W.Receive);
    assert u.buf == [r] && u.queue == [];
    OneLegal(v, W.Receive);
    SentThen(w, q, [W.Receive], t, v, r);
  }

  lemma OneLegal(w: W.State, e: W.Event)
    requires W.Enabled(w, e) && D.Obeys(D.SegmentFiles, w, e)
    ensures Legal(w, [e]) && W.After(w, [e]) == W.Step(w, e)
  {
    hide W.Step, W.Enabled, D.Obeys;
    D.OneEvent(D.SegmentFiles, w, e);
  }

  lemma SecondIsToldOk(q: Query.Query, w: W.State, r1: Row, r2: Row) returns (u: W.State)
    requires w == W.Start(1, []).(next := 1, buf := [r1], futures := [1], replies := map[1 := W.FRESH], sent := [r1],
                                  phase := W.Flushing(false))
    requires IsWrite(Row(0, q.methodId, q.args)) && r2 == Row(2, q.methodId, q.args) && Marshalable(r1)
    ensures var op := Command(q, [], [], [W.WriteOk] + [W.Answer]);
            WriteAllowed(w, op) && Waited(w, op) == u && WriteAnswer(w, op) == Value(OK_ANSWER)
    ensures u.log == [r1] && u.queue == [r2] && W.Enabled(u, W.Take(2))
  {
    hide IsWrite, Waited, WriteAllowed, WriteAnswer, Marshalable;
    var t, v := BeginsAndSends(w, q, r2);
    assert v.futures == [1, 2] && v.queue == [r2];
    u := AnsweredTogether(v, r1);
    SentThen(w, q, [W.WriteOk] + [W.Answer], t, v, r2);
  }

  lemma AnsweredTogether(v: W.State, r: Row) returns (u: W.State)
    requires v.phase == W.Flushing(false) && v.buf == [r] && Marshalable(r) && v.futures == [1, 2] && v.log == []
    requires 1 in v.replies && 2 in v.replies && v.replies[2] == W.FRESH
    ensures Legal(v, [W.WriteOk] + [W.Answer]) && u == W.After(v, [W.WriteOk] + [W.Answer])
    ensures u.log == [r] && u.queue == v.queue && W.Enabled(u, W.Take(2)) && u.replies[2].buffered[0]
  {
    var t := W.Step(v, W.WriteOk);
    D.EncodableRow(r);
    assert t.futures[0] == 1 && t.futures[1] == 2 && t.log == [r];
    W.PutAllOnce(t.replies, t.futures, true, 2);
    u := W.Step(t, W.Answer);
    assert u.replies[2].buffered == [] + [true];
    hide W.Step, W.Enabled, Encodable;
    OneLegal(t, W.Answer);
    LegalCons(v, W.WriteOk, [W.Answer]);
  }

  // One client, two writes one after the other. The first times out while its flush is under way; the second is told OK
  // by that flush and applied, with only the first in the log. After a crash the accepted write is gone and the refused
  // one is in the store.
  lemma AcceptedAndLost(q1: Query.Query, q2: Query.Query)
    requires IsCommand(q1) && q1.methodId != GET && Fits(Row(1, q1.methodId, q1.args))
    requires IsCommand(q2) && q2.methodId != GET
    ensures var s := C.Started(1, []);
            var r1, r2 := Row(1, q1.methodId, q1.args), Row(2, q2.methodId, q2.args);
            var op1, op2 := Command(q1, [], [], [W.Receive]), Command(q2, [], [], [W.WriteOk] + [W.Answer]);
            && OpAllowed(s, op1) && OpAnswer(s, op1) == TimedOut
            && var t := OpStep(s, op1);
               && OpAllowed(t, op2) && OpAnswer(t, op2) == Value(OK_ANSWER)
               && var u := OpStep(t, op2);
                  && u.worker.log == [r1] && u.applied == [r2] && u.store == Apply(map[], r2)
                  && OpAllowed(u, Crash) && OpStep(u, Crash).store == Apply(map[], r1)
  {
    var r1, r2 := Row(1, q1.methodId, q1.args), Row(2, q2.methodId, q2.args);
    hide W.Step, W.Enabled, W.Allowed, W.After, D.WrittenBy, OpStep, OpAnswer, OpAllowed, W.Start, Apply, Fits,
         IsCommand;
    var t := TimedOutOp(q1, r1);
    var u := FalselyOkOp(t, q2, r1, r2);
    CrashOverOne(u, r1);
  }

  lemma TimedOutOp(q: Query.Query, r: Row) returns (t: C.State)
    requires IsCommand(q) && q.methodId != GET && r == Row(1, q.methodId, q.args)
    ensures var s, op := C.Started(1, []), Command(q, [], [], [W.Receive]);
            OpAllowed(s, op) && OpAnswer(s, op) == TimedOut && t == OpStep(s, op)
    ensures t.store == map[] && t.applied == [] && IsWrite(r)
    ensures t.worker == W.Start(1, []).(next := 1, buf := [r], futures := [1], replies := map[1 := W.FRESH],
                                        sent := [r], phase := W.Flushing(false))
  {
    var s, op := C.Started(1, []), Command(q, [], [], [W.Receive]);
    hide W.Step, W.Enabled, W.Allowed, W.After, D.WrittenBy, WriteAllowed, Waited, WriteAnswer, OpStep, OpAnswer,
         OpAllowed, W.MaxLsn;
    var w := FirstTimesOut(q, s.worker, r);
    WriteOp(s, op);
    t := OpStep(s, op);
  }

  lemma FalselyOkOp(t: C.State, q: Query.Query, r1: Row, r2: Row) returns (u: C.State)
    requires IsCommand(q) && q.methodId != GET && r2 == Row(2, q.methodId, q.args) && Fits(r1)
    requires t.store == map[] && t.applied == []
    requires t.worker == W.Start(1, []).(next := 1, buf := [r1], futures := [1], replies := map[1 := W.FRESH],
                                         sent := [r1], phase := W.Flushing(false))
    ensures var op := Command(q, [], [], [W.WriteOk] + [W.Answer]);
            OpAllowed(t, op) && OpAnswer(t, op) == Value(OK_ANSWER) && u == OpStep(t, op)
    ensures u.worker.log == [r1] && u.applied == [r2] && IsWrite(r2) && u.store == Apply(map[], r2)
  {
    var op := Command(q, [], [], [W.WriteOk] + [W.Answer]);
    hide W.Step, W.Enabled, W.Allowed, W.After, D.WrittenBy, WriteAllowed, Waited, WriteAnswer, OpStep, OpAnswer,
         OpAllowed, W.MaxLsn, Apply, Marshalable;
    var w := SecondIsToldOk(q, t.worker, r1, r2);
    WriteOp(t, op);
    u := OpStep(t, op);
    TakeKeepsLog(w, 2);
    assert [] + [r2] == [r2];
  }

  lemma TakeKeepsLog(u: W.State, lsn: U64)
    requires W.Enabled(u, W.Take(lsn))
    ensures W.Step(u, W.Take(lsn)).log == u.log
  {
  }

  lemma CrashOverOne(s: C.State, r: Row)
    requires s.worker.log == [r] && IsWrite(r) && Fits(r)
    ensures OpAllowed(s, Crash) && OpStep(s, Crash).store == Apply(map[], r)
  {
    assert [r][..0] == [];
    assert Run(map[], [r]) == Apply(map[], r);
    hide W.MaxLsn, Marshalable;
  }
}
