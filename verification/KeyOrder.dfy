// When the store ends up as the replay of the log, although rows told OK are applied in any order
// (internal/database/database.go `Execute`): writes to one key must not overlap.
module KeyOrder {
  import opened Wrappers
  import opened ByteCodec
  import opened WalRecord
  import opened LogStream
  import opened Replay
  import opened Commands

  /* ---------- The rows on one key ---------- */

  predicate On(r: Row, key: Bytes)
  {
    r.args != [] && r.args[0] == key
  }

  function OnKey(rows: seq<Row>, key: Bytes): (r: seq<Row>)
  {
    if rows == [] then []
    else
      var front, last := OnKey(rows[..|rows| - 1], key), rows[|rows| - 1];
      if On(last, key) then front + [last] else front
  }

  lemma OnKeyMore(rows: seq<Row>, r: Row, key: Bytes)
    ensures OnKey(rows + [r], key) == if On(r, key) then OnKey(rows, key) + [r] else OnKey(rows, key)
  {
    assert (rows + [r])[..|rows|] == rows;
  }

  lemma {:induction false} OnKeyHas(rows: seq<Row>, key: Bytes, r: Row)
    ensures r in OnKey(rows, key) <==> r in rows && On(r, key)
  {
    if rows != [] {
      var k := |rows| - 1;
      OnKeyHas(rows[..k], key, r);
      assert rows == rows[..k] + [rows[k]];
    }
  }

  lemma {:induction false} OnKeyNone(rows: seq<Row>, more: seq<Row>, key: Bytes)
    requires forall i :: 0 <= i < |more| ==> !On(more[i], key)
    ensures OnKey(rows + more, key) == OnKey(rows, key)
    decreases |more|
  {
    if more == [] {
      assert rows + more == rows;
    } else {
      var k := |more| - 1;
      OnKeyNone(rows, more[..k], key);
      assert rows + more == rows + more[..k] + [more[k]];
      OnKeyMore(rows + more[..k], more[k], key);
    }
  }

  // The last row on a key decides what the key holds.
  function LastOn(rows: seq<Row>, key: Bytes): (last: Option<Row>)
  {
    Last(OnKey(rows, key))
  }

  function Last(rows: seq<Row>): (last: Option<Row>)
  {
    if rows == [] then None else Some(rows[|rows| - 1])
  }

  lemma {:induction false} LastOnDecides(rows: seq<Row>, key: Bytes)
    requires AllWrites(rows)
    ensures LastOn(rows, key).Some? ==> IsWrite(LastOn(rows, key).value) && On(LastOn(rows, key).value, key)
    ensures Lookup(Run(map[], rows), key) == Effect(LastOn(rows, key))
  {
    if rows != [] {
      LastOnDecides(rows[..|rows| - 1], key);
    }
  }

  /* ---------- One write at a time on each key ---------- */

  // Every row sent on this key is in the log and in the store.
  predicate Done(s: State, key: Bytes)
  {
    && (forall i :: 0 <= i < |s.worker.sent| && On(s.worker.sent[i], key) ==> s.worker.sent[i] in s.applied)
    && (forall i :: |s.worker.log| <= i < |s.worker.sent| ==> !On(s.worker.sent[i], key))
  }

  predicate Agrees(s: State, key: Bytes)
  {
    AllWrites(s.worker.log) && Lookup(s.store, key) == Lookup(Run(map[], s.worker.log), key)
  }

  // No write to this key is between its draw and its application.
  predicate Idle(s: State, key: Bytes)
  {
    && (forall lsn :: lsn in s.worker.drawn ==> !On(s.worker.drawn[lsn], key))
    && (forall i :: 0 <= i < |s.worker.sent| && On(s.worker.sent[i], key) ==> s.worker.sent[i] in s.applied)
  }

  // At most one is: it is drawn, or it is the last one sent.
  predicate KeyOk(s: State, key: Bytes)
  {
    var applied, sent := OnKey(s.applied, key), OnKey(s.worker.sent, key);
    && (applied == sent || (sent != [] && applied == sent[..|sent| - 1]))
    && (forall a, b :: a in s.worker.drawn && b in s.worker.drawn ==>
          On(s.worker.drawn[a], key) && On(s.worker.drawn[b], key) ==> a == b)
    && (forall lsn :: lsn in s.worker.drawn && On(s.worker.drawn[lsn], key) ==> applied == sent)
  }

  predicate DrawsOn(e: Event, key: Bytes)
  {
    e.Worker? && e.e.Draw? && On(D.DrawnRow(0, e.e), key)
  }

  lemma SentDistinct(w: W.State)
    requires W.Inv(w)
    ensures forall i, j :: 0 <= i < j < |w.sent| ==> w.sent[i] != w.sent[j]
  {
  }

  lemma {:induction false} OnKeyDistinct(rows: seq<Row>, key: Bytes)
    requires forall i, j :: 0 <= i < j < |rows| ==> rows[i] != rows[j]
    ensures var on := OnKey(rows, key);
            forall i, j :: 0 <= i < j < |on| ==> on[i] != on[j]
  {
    if rows != [] {
      var k := |rows| - 1;
      OnKeyDistinct(rows[..k], key);
      OnKeyHas(rows[..k], key, rows[k]);
    }
  }

  // Once every row sent on the key is applied, they are applied in the order they were sent.
  lemma AllAppliedInOrder(s: State, key: Bytes)
    requires Inv(s) && KeyOk(s, key)
    requires forall i :: 0 <= i < |s.worker.sent| && On(s.worker.sent[i], key) ==> s.worker.sent[i] in s.applied
    ensures OnKey(s.applied, key) == OnKey(s.worker.sent, key)
  {
    var applied, sent := OnKey(s.applied, key), OnKey(s.worker.sent, key);
    SentDistinct(s.worker);
    OnKeyDistinct(s.worker.sent, key);
    hide Inv, OnKey;
    if sent != [] {
      var last := sent[|sent| - 1];
      OnKeyHas(s.worker.sent, key, last);
      OnKeyHas(s.applied, key, last);
      assert last in applied;
    }
  }

  lemma DoneAgrees(s: State, key: Bytes)
    requires Inv(s) && KeyOk(s, key) && Done(s, key)
    ensures Agrees(s, key)
  {
    AllAppliedInOrder(s, key);
    LogWrites(s.worker);
    var w := s.worker;
    assert w.sent == w.log + w.sent[|w.log|..];
    OnKeyNone(w.log, w.sent[|w.log|..], key);
    LastOnDecides(s.applied, key);
    LastOnDecides(w.log, key);
    hide Inv, OnKey, Run;
  }

  lemma SendKeepsKeyOk(s: State, lsn: U64, key: Bytes)
    requires Inv(s) && KeyOk(s, key) && Enabled(s, Worker(W.Send(lsn)))
    ensures KeyOk(Step(s, Worker(W.Send(lsn))), key)
  {
    hide Inv, OnKey, On, D.Obeys;
    var w, t := s.worker, Step(s, Worker(W.Send(lsn)));
    assert t.worker.sent == w.sent + [w.drawn[lsn]] && t.worker.drawn == w.drawn - {lsn} && t.applied == s.applied;
    hide Step, Enabled;
    OnKeyMore(w.sent, w.drawn[lsn], key);
    var sent := OnKey(w.sent, key);
    if On(w.drawn[lsn], key) {
      assert (sent + [w.drawn[lsn]])[..|sent|] == sent;
    }
  }

  lemma ApplyKeepsKeyOk(s: State, row: Row, key: Bytes)
    requires Inv(s) && KeyOk(s, key) && Enabled(s, Apply(row))
    ensures KeyOk(Step(s, Apply(row)), key)
  {
    var applied, sent := OnKey(s.applied, key), OnKey(s.worker.sent, key);
    OnKeyMore(s.applied, row, key);
    OnKeyHas(s.worker.sent, key, row);
    OnKeyHas(s.applied, key, row);
    hide Inv, OnKey;
    if On(row, key) {
      assert row in sent && row !in applied && applied != sent;
      assert sent == sent[..|sent| - 1] + [sent[|sent| - 1]];
      assert row == sent[|sent| - 1];
    }
  }

  lemma CrashKeepsKeyOk(s: State, key: Bytes)
    requires Enabled(s, Crash)
    ensures KeyOk(Step(s, Crash), key)
  {
    hide Run, W.MaxLsn, OnKey;
  }

  lemma DrawKeepsKeyOk(s: State, e: Event, key: Bytes)
    requires Inv(s) && KeyOk(s, key) && Enabled(s, e) && e.Worker? && e.e.Draw? && (DrawsOn(e, key) ==> Idle(s, key))
    ensures KeyOk(Step(s, e), key)
  {
    if DrawsOn(e, key) {
      AllAppliedInOrder(s, key);
    }
    hide Inv, OnKey;
  }

  lemma KeyStep(s: State, e: Event, key: Bytes)
    requires Inv(s) && KeyOk(s, key) && Enabled(s, e) && (DrawsOn(e, key) ==> Idle(s, key))
    ensures KeyOk(Step(s, e), key)
  {
    hide Inv, OnKey, Step, Enabled, KeyOk, Idle, DrawsOn;
    if e.Apply? {
      ApplyKeepsKeyOk(s, e.row, key);
    } else if e.Crash? {
      CrashKeepsKeyOk(s, key);
    } else if e.e.Send? {
      SendKeepsKeyOk(s, e.e.lsn, key);
    } else if e.e.Draw? {
      DrawKeepsKeyOk(s, e, key);
    } else {
      SameRows(s, e);
      SameKeyOk(s, Step(s, e), key);
    }
  }

  lemma SameRows(s: State, e: Event)
    requires Enabled(s, e) && e.Worker? && !e.e.Send? && !e.e.Draw?
    ensures var t := Step(s, e);
            t.worker.sent == s.worker.sent && t.worker.drawn == s.worker.drawn && t.applied == s.applied &&
            t.store == s.store
  {
    hide D.Obeys, IsWrite;
    WorkerLeavesRows(s.worker, e.e);
    hide W.Step, W.Enabled;
  }

  lemma WorkerLeavesRows(w: W.State, e: W.Event)
    requires W.Enabled(w, e) && !e.Send? && !e.Draw?
    ensures W.Step(w, e).sent == w.sent && W.Step(w, e).drawn == w.drawn
  {
    hide W.PutAll;
  }

  lemma SameKeyOk(s: State, t: State, key: Bytes)
    requires KeyOk(s, key)
    requires t.worker.sent == s.worker.sent && t.worker.drawn == s.worker.drawn && t.applied == s.applied
    ensures KeyOk(t, key)
  {
    hide OnKey;
  }

  // The discipline: a write is drawn only when no other write to its key is under way.
  ghost predicate OnePerKey(s: State, events: seq<Event>)
    requires Allowed(s, events)
    decreases |events|
  {
    events == [] ||
    ((forall key :: DrawsOn(events[0], key) ==> Idle(s, key)) && OnePerKey(Step(s, events[0]), events[1..]))
  }

  lemma {:induction false} OnePerKeyRun(s: State, events: seq<Event>, key: Bytes)
    requires Inv(s) && KeyOk(s, key) && Allowed(s, events) && OnePerKey(s, events)
    ensures KeyOk(After(s, events), key)
    decreases |events|
  {
    hide Step, Enabled, Inv, KeyOk, Idle, DrawsOn;
    if events != [] {
      KeyStep(s, events[0], key);
      StepInv(s, events[0]);
      OnePerKeyRun(Step(s, events[0]), events[1..], key);
    }
  }

  lemma StartedKeyOk(batch: nat, log: seq<Row>, key: Bytes)
    requires AllWrites(log)
    ensures KeyOk(Started(batch, log), key)
  {
    hide W.MaxLsn, Run, OnKey;
  }

  // Everything sent is in the log and in the store.
  predicate AllDone(s: State)
  {
    s.worker.queue == [] && s.worker.buf == [] &&
    forall i :: 0 <= i < |s.worker.sent| ==> s.worker.sent[i] in s.applied
  }

  // Clients who never let two writes to one key overlap can rely on the store: on every key whose rows have all been
  // logged and applied it holds what the log says, and once that is all of them it is the replay of the log.
  lemma OnePerKeyAgrees(batch: nat, log: seq<Row>, events: seq<Event>)
    requires W.Startable(log) && AllWrites(log) && Allowed(Started(batch, log), events)
    requires OnePerKey(Started(batch, log), events)
    ensures var s := After(Started(batch, log), events);
            && AllWrites(s.worker.log)
            && (forall key :: Done(s, key) ==> Agrees(s, key))
            && (AllDone(s) ==> s.store == Run(map[], s.worker.log))
  {
    hide Allowed, After, OnePerKey, Inv, KeyOk, Agrees, Run, W.Start, AllWrites, W.Startable, Done;
    var s0 := Started(batch, log);
    StartedInv(batch, log);
    RunInv(s0, events);
    var s := After(s0, events);
    forall key ensures Done(s, key) ==> Agrees(s, key) {
      StartedKeyOk(batch, log, key);
      OnePerKeyRun(s0, events, key);
      if Done(s, key) {
        DoneAgrees(s, key);
      }
    }
    InvLog(s);
    if AllDone(s) {
      forall key ensures Agrees(s, key) {
        DoneEverywhere(s, key);
      }
      AgreeEverywhere(s);
    }
  }

  lemma DoneEverywhere(s: State, key: Bytes)
    requires AllDone(s) && s.worker.log + s.worker.buf + s.worker.queue == s.worker.sent
    ensures Done(s, key)
  {
  }

  lemma InvLog(s: State)
    requires Inv(s)
    ensures AllWrites(s.worker.log) && s.worker.log + s.worker.buf + s.worker.queue == s.worker.sent
  {
    LogWrites(s.worker);
  }

  lemma AgreeEverywhere(s: State)
    requires AllWrites(s.worker.log) && forall key :: Agrees(s, key)
    ensures s.store == Run(map[], s.worker.log)
  {
    forall key ensures Lookup(s.store, key) == Lookup(Run(map[], s.worker.log), key) {
      assert Agrees(s, key);
    }
    SameMap(s.store, Run(map[], s.worker.log));
  }

  /* ---------- A worker that can still write ---------- */

  // Not cancelled, and everything on its way can be encoded.
  predicate Live(w: W.State)
  {
    !w.cancelled && w.batch >= 1 && Encodable(w.buf) && Encodable(w.queue)
  }

  predicate NoDraws(events: seq<W.Event>)
  {
    forall i :: 0 <= i < |events| ==> !events[i].Draw?
  }

  function NextStep(w: W.State): (e: W.Event)
  {
    if w.phase.Flushing? then W.WriteOk
    else if w.phase.Answering? then W.Answer
    else if w.buf != [] then W.Tick
    else W.Receive
  }

  function Distance(w: W.State): (n: nat)
  {
    4 * |w.queue| +
    (if w.phase.Flushing? then 2 else if w.phase.Answering? then 1 else if w.buf != [] then 3 else 0)
  }

  // What stays while the worker is driven on.
  predicate Carries(w: W.State, t: W.State)
  {
    && t.sent == w.sent && t.drawn == w.drawn && t.unregistered == w.unregistered && t.next == w.next
    && t.batch == w.batch
    && (forall lsn :: D.ToldOk(w, lsn) ==> D.ToldOk(t, lsn))
    && (forall i :: 0 <= i < |w.futures| ==> w.futures[i] in t.futures || D.ToldOk(t, w.futures[i]))
  }

  predicate Ready(w: W.State)
  {
    W.Inv(w) && D.FailureIsFinal(w) && Live(w)
  }

  lemma DriveStep(w: W.State)
    requires Ready(w) && !W.Clear(w)
    ensures W.Enabled(w, NextStep(w)) && D.Obeys(D.SegmentFiles, w, NextStep(w))
    ensures var t := W.Step(w, NextStep(w));
            && Ready(t) && Carries(w, t) && Distance(t) < Distance(w)
            && (if w.phase.Answering? then forall i :: 0 <= i < |w.futures| ==> D.ToldOk(t, w.futures[i])
                else !W.Clear(t))
  {
    var e := NextStep(w);
    PhasesLeft(w);
    if w.phase.Answering? {
      DriveAnswer(w);
    } else {
      DriveOn(w);
    }
    W.OneStepInv(w, e);
    D.FinalStep(w, e);
    StaysLive(w, e);
    hide W.Inv, D.FailureIsFinal, Live, W.Step, Carries, Distance;
  }

  lemma PhasesLeft(w: W.State)
    requires Ready(w) && !W.Clear(w)
    ensures w.phase == W.Waiting || w.phase == W.Flushing(false) || w.phase == W.Answering(true, false)
    ensures W.Enabled(w, NextStep(w)) && D.Obeys(D.SegmentFiles, w, NextStep(w))
  {
    if w.phase.Answering? {
      D.CanAnswer(w);
    }
    hide W.FuturesOk, W.RowsOk, Encodable;
  }

  lemma DriveOn(w: W.State)
    requires W.Enabled(w, NextStep(w)) && !w.phase.Answering? && !W.Clear(w)
    requires w.phase == W.Waiting || w.phase == W.Flushing(false)
    ensures var t := W.Step(w, NextStep(w));
            Carries(w, t) && Distance(t) < Distance(w) && !W.Clear(t)
  {
  }

  lemma DriveAnswer(w: W.State)
    requires W.Inv(w) && w.phase == W.Answering(true, false) && W.Enabled(w, W.Answer)
    ensures var t := W.Step(w, W.Answer);
            && Carries(w, t) && Distance(t) < Distance(w)
            && forall i :: 0 <= i < |w.futures| ==> D.ToldOk(t, w.futures[i])
  {
    W.NotYetAnswered(w);
    assert w.buf == [];
    hide W.Inv, W.PutAll, W.CanPut, W.FuturesOk;
    var t := W.Step(w, W.Answer);
    assert t.answers == w.answers + W.Told(w.futures, true);
    assert Distance(t) < Distance(w);
  }

  lemma StaysLive(w: W.State, e: W.Event)
    requires Live(w) && W.Enabled(w, e) && (e.Receive? || e.Tick? || e.WriteOk? || e.Answer?)
    ensures Live(W.Step(w, e))
  {
    if e.Receive? {
      EncodableTaken(w.buf, w.queue);
    }
    hide Encodable, W.PutAll;
  }

  lemma EncodableTaken(buf: seq<Row>, queue: seq<Row>)
    requires Encodable(buf) && Encodable(queue) && queue != []
    ensures Encodable(buf + [queue[0]]) && Encodable(queue[1..])
  {
    hide Marshalable;
  }

  // A run of the WAL over the segment files that draws nothing.
  predicate Leads(w: W.State, events: seq<W.Event>, t: W.State)
  {
    && W.Allowed(w, events) && D.WrittenBy(D.SegmentFiles, w, events) && t == W.After(w, events)
    && NoDraws(events)
  }

  lemma LeadsOne(w: W.State, e: W.Event)
    requires W.Enabled(w, e) && D.Obeys(D.SegmentFiles, w, e) && !e.Draw?
    ensures Leads(w, [e], W.Step(w, e))
  {
    hide W.Step, W.Enabled, D.Obeys;
    D.OneEvent(D.SegmentFiles, w, e);
  }

  lemma LeadsOn(w: W.State, a: seq<W.Event>, t: W.State, b: seq<W.Event>, u: W.State)
    requires Leads(w, a, t) && Leads(t, b, u)
    ensures Leads(w, a + b, u)
  {
    hide W.Step, W.Enabled, D.Obeys, W.Allowed, W.After, D.WrittenBy;
    D.WrittenCompose(D.SegmentFiles, w, a, b);
  }

  lemma CarriesOn(w: W.State, t: W.State, u: W.State)
    requires Carries(w, t) && Carries(t, u)
    ensures Carries(w, u)
  {
    forall i | 0 <= i < |w.futures| ensures w.futures[i] in u.futures || D.ToldOk(u, w.futures[i]) {
      if w.futures[i] in t.futures {
        var k :| 0 <= k < |t.futures| && t.futures[k] == w.futures[i];
      }
    }
  }

  // It can be driven until everything sent is in the log; if anything was on its way, everyone registered is told OK.
  lemma {:induction false} Drive(w: W.State) returns (events: seq<W.Event>, t: W.State)
    requires Ready(w)
    ensures Leads(w, events, t) && Ready(t) && W.Clear(t) && t.log == t.sent && Carries(w, t)
    ensures !W.Clear(w) ==> forall i :: 0 <= i < |w.futures| ==> D.ToldOk(t, w.futures[i])
    decreases Distance(w)
  {
    if W.Clear(w) {
      events, t := [], w;
      assert w.log + [] + [] == w.log;
    } else {
      DriveStep(w);
      var e, u := NextStep(w), W.Step(w, NextStep(w));
      hide W.Step, W.Enabled, D.Obeys, Ready, W.Inv, Distance, D.ToldOk, W.Clear, Carries;
      var rest;
      rest, t := Drive(u);
      CarriesOn(w, u, t);
      ToldInTheEnd(w, u, t);
      LeadsOne(w, e);
      LeadsOn(w, [e], u, rest, t);
      events := [e] + rest;
    }
  }

  lemma ToldInTheEnd(w: W.State, u: W.State, t: W.State)
    requires Carries(w, u) && Carries(u, t)
    requires (forall i :: 0 <= i < |w.futures| ==> D.ToldOk(u, w.futures[i])) ||
             (forall i :: 0 <= i < |u.futures| ==> D.ToldOk(t, u.futures[i]))
    ensures forall i :: 0 <= i < |w.futures| ==> D.ToldOk(t, w.futures[i])
  {
    forall i | 0 <= i < |w.futures| ensures D.ToldOk(t, w.futures[i]) {
      if w.futures[i] in u.futures {
        var k :| 0 <= k < |u.futures| && u.futures[k] == w.futures[i];
      }
    }
  }

  /* ---------- Two writes to one key at once ---------- */

  predicate Known(w: W.State, lsn: U64)
  {
    lsn in w.futures || D.ToldOk(w, lsn)
  }

  lemma KnownCarries(w: W.State, t: W.State, lsn: U64)
    requires Known(w, lsn) && Carries(w, t)
    ensures Known(t, lsn)
  {
    if lsn in w.futures {
      var k :| 0 <= k < |w.futures| && w.futures[k] == lsn;
    }
  }

  // A row sent from a clear state and registered.
  lemma SendNow(w: W.State, r: Row) returns (events: seq<W.Event>, t: W.State)
    requires Ready(w) && W.Clear(w) && r.lsn in w.drawn && w.drawn[r.lsn] == r && Marshalable(r)
    ensures Leads(w, events, t) && Ready(t) && !W.Clear(t) && Known(t, r.lsn)
    ensures t.sent == w.sent + [r] && t.drawn == w.drawn - {r.lsn} && t.unregistered == w.unregistered - {r.lsn}
    ensures t.next == w.next && t.batch == w.batch && forall lsn :: Known(w, lsn) ==> Known(t, lsn)
  {
    var u := W.Step(w, W.Send(r.lsn));
    assert u.queue == [r] && r.lsn in u.unregistered;
    D.EncodableRow(r);
    t := W.Step(u, W.Register(r.lsn));
    assert t.futures[|u.futures|] == r.lsn;
    W.OneStepInv(w, W.Send(r.lsn));
    W.OneStepInv(u, W.Register(r.lsn));
    D.FinalStep(w, W.Send(r.lsn));
    D.FinalStep(u, W.Register(r.lsn));
    assert t.unregistered == w.unregistered - {r.lsn};
    LeadsOne(w, W.Send(r.lsn));
    LeadsOne(u, W.Register(r.lsn));
    hide W.Inv, D.FailureIsFinal, Encodable, Leads;
    LeadsOn(w, [W.Send(r.lsn)], u, [W.Register(r.lsn)], t);
    events := [W.Send(r.lsn)] + [W.Register(r.lsn)];
  }

  lemma RegisterNow(w: W.State, lsn: U64) returns (events: seq<W.Event>, t: W.State)
    requires Ready(w) && lsn in w.unregistered
    ensures Leads(w, events, t) && Ready(t) && Known(t, lsn) && (W.Clear(t) <==> W.Clear(w))
    ensures t.sent == w.sent && t.drawn == w.drawn && t.next == w.next && t.batch == w.batch
  {
    t := W.Step(w, W.Register(lsn));
    assert t.futures[|w.futures|] == lsn;
    W.OneStepInv(w, W.Register(lsn));
    D.FinalStep(w, W.Register(lsn));
    LeadsOne(w, W.Register(lsn));
    hide W.Inv, D.FailureIsFinal, Encodable, Leads;
    events := [W.Register(lsn)];
  }

  // Before a second row is sent, the first is sent and its writer registered or told.
  lemma FirstIsKnown(w: W.State, r: Row) returns (events: seq<W.Event>, t: W.State)
    requires Ready(w)
    requires (r.lsn in w.drawn && w.drawn[r.lsn] == r && Marshalable(r)) || Known(w, r.lsn) || r.lsn in w.unregistered
    ensures Leads(w, events, t) && Ready(t) && W.Clear(t) && t.next == w.next && t.batch == w.batch && Known(t, r.lsn)
    ensures if Known(w, r.lsn) || r.lsn in w.unregistered then t.sent == w.sent && t.drawn == w.drawn
            else t.sent == w.sent + [r] && t.drawn == w.drawn - {r.lsn}
  {
    hide Ready, Leads, W.Step, W.Enabled, W.Clear, Marshalable, D.ToldOk;
    var first, w1 := Drive(w);
    var second, w2;
    if Known(w, r.lsn) {
      KnownCarries(w, w1, r.lsn);
      events, t := first, w1;
    } else {
      if r.lsn in w.unregistered {
        second, w2 := RegisterNow(w1, r.lsn);
      } else {
        second, w2 := SendNow(w1, r);
      }
      var third;
      third, t := Drive(w2);
      KnownCarries(w2, t, r.lsn);
      LeadsOn(w, first, w1, second, w2);
      LeadsOn(w, first + second, w2, third, t);
      events := first + second + third;
    }
  }

  // Both rows can come to be logged and told OK, the first one first.
  lemma TwoTold(w: W.State, r: Row, d: Row) returns (events: seq<W.Event>, t: W.State)
    requires Ready(w) && r.lsn != d.lsn && d.lsn in w.drawn && w.drawn[d.lsn] == d && Marshalable(d)
    requires (r.lsn in w.drawn && w.drawn[r.lsn] == r && Marshalable(r)) || Known(w, r.lsn) || r.lsn in w.unregistered
    ensures Leads(w, events, t) && W.Inv(t) && t.log == t.sent && D.ToldOk(t, r.lsn) && D.ToldOk(t, d.lsn)
    ensures t.sent == (if Known(w, r.lsn) || r.lsn in w.unregistered then w.sent + [d] else w.sent + [r] + [d])
  {
    hide Leads, W.Step, W.Enabled, W.Clear, Marshalable, D.ToldOk, W.Inv, D.FailureIsFinal, Live;
    var first, w1 := FirstIsKnown(w, r);
    var second, w2 := SendNow(w1, d);
    var third;
    third, t := Drive(w2);
    ToldWhenKnown(w2, t, r.lsn);
    ToldWhenKnown(w2, t, d.lsn);
    LeadsOn(w, first, w1, second, w2);
    LeadsOn(w, first + second, w2, third, t);
    events := first + second + third;
  }

  lemma ToldWhenKnown(w: W.State, t: W.State, lsn: U64)
    requires Known(w, lsn) && Carries(w, t) && forall i :: 0 <= i < |w.futures| ==> D.ToldOk(t, w.futures[i])
    ensures D.ToldOk(t, lsn)
  {
    if lsn in w.futures {
      var k :| 0 <= k < |w.futures| && w.futures[k] == lsn;
    }
  }

  function RowEffect(r: Row): (v: Option<Bytes>)
    requires IsWrite(r)
  {
    Effect(Some(r))
  }

  // A write to this key that is under way: drawn, or sent and not applied.
  predicate UnderWay(s: State, key: Bytes, r: Row)
  {
    && On(r, key) && IsWrite(r)
    && ((r.lsn in s.worker.drawn && s.worker.drawn[r.lsn] == r) || (r in s.worker.sent && r !in s.applied))
  }

  // Every write to this key under way would leave the same value.
  ghost predicate NoConflict(s: State, key: Bytes, v: Option<Bytes>)
  {
    forall r :: UnderWay(s, key, r) ==> RowEffect(r) == v
  }

  lemma UnderWayIsPlaced(s: State, key: Bytes, r: Row)
    requires Inv(s) && UnderWay(s, key, r) && Live(s.worker)
    requires forall lsn :: lsn in s.worker.drawn ==> Marshalable(s.worker.drawn[lsn]) || !On(s.worker.drawn[lsn], key)
    ensures var w := s.worker;
            if r in w.sent then Known(w, r.lsn) || r.lsn in w.unregistered
            else r.lsn in w.drawn && w.drawn[r.lsn] == r && Marshalable(r) && !Known(w, r.lsn) &&
                 r.lsn !in w.unregistered
    ensures r !in s.applied
  {
    hide Marshalable, Encodable, W.Conserved, AllWrites, Run;
    var w := s.worker;
    if r in w.sent {
      var k :| 0 <= k < |w.sent| && w.sent[k] == r;
      assert Placed(w, s.applied, w.sent[k]);
    } else {
      NotSentIsNowhere(s, r);
    }
  }

  // A row still to be sent has no future listed, no answer, and is not applied.
  lemma NotSentIsNowhere(s: State, r: Row)
    requires Inv(s) && r.lsn in s.worker.drawn && r !in s.worker.sent
    ensures !Known(s.worker, r.lsn) && r.lsn !in s.worker.unregistered && r !in s.applied
  {
    var w := s.worker;
    assert W.OpenFuture(w, r.lsn);
    hide AllPlaced, W.RowsOk, W.Conserved, AllWrites, Run;
  }

  // On a key with one write under way, everything else sent is applied.
  lemma OthersApplied(s: State, key: Bytes, r: Row, x: Row)
    requires Inv(s) && KeyOk(s, key) && UnderWay(s, key, r) && x in s.worker.sent && On(x, key) && x != r
    ensures x in s.applied
  {
    var applied, sent := OnKey(s.applied, key), OnKey(s.worker.sent, key);
    OnKeyHas(s.worker.sent, key, x);
    OnKeyHas(s.applied, key, x);
    OnKeyHas(s.worker.sent, key, r);
    OnKeyHas(s.applied, key, r);
    hide Inv, OnKey, IsWrite;
    if applied != sent {
      assert sent == sent[..|sent| - 1] + [sent[|sent| - 1]];
      assert r in sent && r !in applied;
      assert r == sent[|sent| - 1];
    }
  }

  predicate NoDrawOn(events: seq<Event>, key: Bytes)
  {
    forall i :: 0 <= i < |events| ==> !DrawsOn(events[i], key)
  }

  // A write to the key about to be drawn: the worker can still write, and so can it and those already drawn.
  predicate CanWrite(s: State, draw: W.Event, key: Bytes)
  {
    && Inv(s) && KeyOk(s, key) && Live(s.worker) && Enabled(s, Worker(draw)) && draw.Draw?
    && On(D.DrawnRow(0, draw), key) && Marshalable(D.DrawnRow(0, draw))
    && (forall lsn :: lsn in s.worker.drawn ==> Marshalable(s.worker.drawn[lsn]) || !On(s.worker.drawn[lsn], key))
  }

  lemma DrawNow(s: State, draw: W.Event, key: Bytes) returns (t: State, d: Row)
    requires CanWrite(s, draw, key)
    ensures t == Step(s, Worker(draw)) && Inv(t) && Ready(t.worker)
    ensures d == D.DrawnRow(s.worker.next + 1, draw) && IsWrite(d) && On(d, key) && Marshalable(d)
    ensures t.applied == s.applied && t.worker.sent == s.worker.sent && t.worker.drawn == s.worker.drawn[d.lsn := d]
    ensures d !in t.worker.sent && d !in t.applied && d.lsn !in s.worker.drawn
  {
    StepInv(s, Worker(draw));
    t, d := Step(s, Worker(draw)), D.DrawnRow(s.worker.next + 1, draw);
    assert Live(t.worker);
    NotSentIsNowhere(t, d);
    hide Run, AllWrites, AppliedOk, AllPlaced, W.FuturesOk, Encodable;
  }

  lemma StillUnderWay(s: State, draw: W.Event, key: Bytes, r: Row, t: State, d: Row)
    requires CanWrite(s, draw, key) && UnderWay(s, key, r) && d == D.DrawnRow(s.worker.next + 1, draw)
    requires t.applied == s.applied && t.worker.sent == s.worker.sent && t.worker.drawn == s.worker.drawn[d.lsn := d]
    requires Marshalable(d)
    ensures UnderWay(t, key, r) && r.lsn != d.lsn
    ensures forall lsn :: lsn in t.worker.drawn ==> Marshalable(t.worker.drawn[lsn]) || !On(t.worker.drawn[lsn], key)
  {
    hide Run, AllWrites, AppliedOk, AllPlaced, W.FuturesOk, Encodable, Marshalable;
  }

  lemma LedByWorker(t: State, events: seq<W.Event>, w: W.State, key: Bytes)
    requires Leads(t.worker, events, w)
    ensures Allowed(t, Lifted(events)) && After(t, Lifted(events)) == t.(worker := w) && NoDrawOn(Lifted(events), key)
  {
    hide W.Step, W.Enabled, W.Allowed, W.After, D.WrittenBy, Step, Enabled, Allowed, After;
    LiftedRun(t, events);
  }

  lemma ReversedEnd(s: State, t: State, key: Bytes, r: Row, d: Row)
    requires Inv(s) && KeyOk(s, key) && UnderWay(s, key, r) && On(d, key) && IsWrite(d) && Inv(t)
    requires t.applied == s.applied + [d] + [r] && t.worker.log == t.worker.sent && RowEffect(r) != RowEffect(d)
    requires t.worker.sent == if r in s.worker.sent then s.worker.sent + [d] else s.worker.sent + [r] + [d]
    ensures Done(t, key) && !Agrees(t, key)
  {
    assert On(r, key) && IsWrite(r);
    hide Inv, KeyOk, UnderWay, On, IsWrite, RowEffect, Run, Lookup, AllWrites, Done;
    ReversedDone(s, t, key, r, d);
    InvLog(t);
    StoreOf(t);
    ReversedWrong(t.applied, s.applied + [d], t.worker.log,
                  if r in s.worker.sent then s.worker.sent else s.worker.sent + [r], key, r, d);
  }

  lemma ReversedDone(s: State, t: State, key: Bytes, r: Row, d: Row)
    requires Inv(s) && KeyOk(s, key) && UnderWay(s, key, r)
    requires t.applied == s.applied + [d] + [r] && t.worker.log == t.worker.sent
    requires t.worker.sent == if r in s.worker.sent then s.worker.sent + [d] else s.worker.sent + [r] + [d]
    ensures Done(t, key)
  {
    hide Inv, KeyOk, UnderWay, On;
    forall i | 0 <= i < |t.worker.sent| && On(t.worker.sent[i], key) ensures t.worker.sent[i] in t.applied {
      OneOfThem(s, t, key, r, d, t.worker.sent[i]);
    }
  }

  lemma OneOfThem(s: State, t: State, key: Bytes, r: Row, d: Row, x: Row)
    requires Inv(s) && KeyOk(s, key) && UnderWay(s, key, r) && On(x, key)
    requires x in s.worker.sent || x == r || x == d
    requires t.applied == s.applied + [d] + [r]
    ensures x in t.applied
  {
    hide Inv, KeyOk, UnderWay, On;
    if x in s.worker.sent && x != r {
      OthersApplied(s, key, r, x);
    }
  }

  lemma StoreOf(s: State)
    requires Inv(s)
    ensures AllWrites(s.applied) && s.store == Run(map[], s.applied)
  {
  }

  lemma ReversedWrong(applied: seq<Row>, a: seq<Row>, log: seq<Row>, l: seq<Row>, key: Bytes, r: Row, d: Row)
    requires applied == a + [r] && log == l + [d] && AllWrites(applied) && AllWrites(log) && On(r, key) && On(d, key)
    requires IsWrite(r) && IsWrite(d) && RowEffect(r) != RowEffect(d)
    ensures Lookup(Run(map[], applied), key) != Lookup(Run(map[], log), key)
  {
    OnKeyMore(a, r, key);
    OnKeyMore(l, d, key);
    LastOnDecides(applied, key);
    LastOnDecides(log, key);
    hide OnKey, Run, Lookup, AllWrites, On;
  }

  // Logged one way round, applied the other.
  lemma ToldAndApplied(t: State, r: Row, d: Row, key: Bytes) returns (events: seq<Event>, u: State)
    requires Inv(t) && Ready(t.worker) && IsWrite(r) && IsWrite(d) && r !in t.applied && d !in t.applied
    requires r.lsn != d.lsn && d.lsn in t.worker.drawn && t.worker.drawn[d.lsn] == d && Marshalable(d)
    requires var w := t.worker;
             if r in w.sent then Known(w, r.lsn) || r.lsn in w.unregistered
             else r.lsn in w.drawn && w.drawn[r.lsn] == r && Marshalable(r) && !Known(w, r.lsn) &&
                  r.lsn !in w.unregistered
    ensures Allowed(t, events) && NoDrawOn(events, key) && u == After(t, events) && Inv(u)
    ensures u.applied == t.applied + [d] + [r] && u.worker.log == u.worker.sent
    ensures u.worker.sent == if r in t.worker.sent then t.worker.sent + [d] else t.worker.sent + [r] + [d]
  {
    hide Step, Enabled, Marshalable, IsWrite, Allowed, After, Inv, Ready, Known, Leads, W.Inv, Replay.Apply, DrawsOn;
    var told, w := TwoTold(t.worker, r, d);
    assert r in w.sent && d in w.sent;
    var told' := t.(worker := w);
    LedByWorker(t, told, w, key);
    AppliedInReverse(told', r, d);
    RunsCompose(t, Lifted(told), [Apply(d)]);
    RunsCompose(t, Lifted(told) + [Apply(d)], [Apply(r)]);
    events := Lifted(told) + [Apply(d)] + [Apply(r)];
    u := After(t, events);
    AppliesDrawNothing(r, d, key);
    RunInv(t, events);
  }

  lemma AppliesDrawNothing(r: Row, d: Row, key: Bytes)
    ensures !DrawsOn(Apply(r), key) && !DrawsOn(Apply(d), key)
  {
  }

  // Two writes to one key, the second drawn while the first is under way and leaving another value: there is a run that
  // logs the first before the second, applies them the other way round, and ends with both done and the store wrong.
  lemma Disagreement(s: State, draw: W.Event, key: Bytes, r: Row) returns (events: seq<Event>)
    requires CanWrite(s, draw, key) && UnderWay(s, key, r)
    requires RowEffect(r) != RowEffect(D.DrawnRow(0, draw))
    ensures var t := Step(s, Worker(draw));
            && Allowed(t, events) && NoDrawOn(events, key)
            && Done(After(t, events), key) && !Agrees(After(t, events), key)
  {
    var t, d := DrawNow(s, draw, key);
    StillUnderWay(s, draw, key, r, t, d);
    UnderWayIsPlaced(t, key, r);
    assert IsWrite(r) && On(r, key) && RowEffect(d) == RowEffect(D.DrawnRow(0, draw));
    hide Step, Enabled, KeyOk, UnderWay, Marshalable, IsWrite, Ready, Allowed, After, Inv, Known, RowEffect, Done,
         Agrees, On;
    var u;
    events, u := ToldAndApplied(t, r, d, key);
    ReversedEnd(s, u, key, r, d);
  }

  /* ---------- When it does not matter ---------- */

  predicate AllLeave(rows: seq<Row>, v: Option<Bytes>)
  {
    forall i :: 0 <= i < |rows| ==> IsWrite(rows[i]) && RowEffect(rows[i]) == v
  }

  // Beyond a common beginning, whatever was sent or applied on the key leaves the same value, and so does what is
  // drawn.
  predicate AlikeFrom(s: State, key: Bytes, v: Option<Bytes>, p: seq<Row>)
  {
    var applied, sent := OnKey(s.applied, key), OnKey(s.worker.sent, key);
    && p <= applied && p <= sent && AllLeave(applied[|p|..], v) && AllLeave(sent[|p|..], v)
    && (forall lsn :: lsn in s.worker.drawn && On(s.worker.drawn[lsn], key) ==>
          IsWrite(s.worker.drawn[lsn]) && RowEffect(s.worker.drawn[lsn]) == v)
  }

  lemma LeaveMore(rows: seq<Row>, r: Row, n: nat, v: Option<Bytes>)
    requires n <= |rows| && AllLeave(rows[n..], v) && IsWrite(r) && RowEffect(r) == v
    ensures AllLeave((rows + [r])[n..], v)
  {
    assert (rows + [r])[n..] == rows[n..] + [r];
  }

  lemma AlikeSend(s: State, lsn: U64, key: Bytes, v: Option<Bytes>, p: seq<Row>)
    requires Inv(s) && AlikeFrom(s, key, v, p) && Enabled(s, Worker(W.Send(lsn)))
    ensures AlikeFrom(Step(s, Worker(W.Send(lsn))), key, v, p)
  {
    var w, t := s.worker, Step(s, Worker(W.Send(lsn)));
    assert t.worker.sent == w.sent + [w.drawn[lsn]] && t.worker.drawn == w.drawn - {lsn} && t.applied == s.applied;
    hide Inv, OnKey, Step, Enabled, On, IsWrite, RowEffect, AllLeave;
    OnKeyMore(w.sent, w.drawn[lsn], key);
    if On(w.drawn[lsn], key) {
      LeaveMore(OnKey(w.sent, key), w.drawn[lsn], |p|, v);
    }
  }

  lemma AlikeApply(s: State, row: Row, key: Bytes, v: Option<Bytes>, p: seq<Row>)
    requires Inv(s) && AlikeFrom(s, key, v, p) && Enabled(s, Apply(row))
    ensures AlikeFrom(Step(s, Apply(row)), key, v, p)
  {
    var applied, sent := OnKey(s.applied, key), OnKey(s.worker.sent, key);
    OnKeyMore(s.applied, row, key);
    OnKeyHas(s.worker.sent, key, row);
    OnKeyHas(s.applied, key, row);
    hide Inv, OnKey, On;
    if On(row, key) {
      var k :| 0 <= k < |sent| && sent[k] == row;
      assert forall i :: 0 <= i < |p| ==> sent[i] == applied[i];
      assert k >= |p|;
      assert sent[|p|..][k - |p|] == row;
      LeaveMore(applied, row, |p|, v);
    }
  }

  lemma AlikeStep(s: State, e: Event, key: Bytes, v: Option<Bytes>, p: seq<Row>) returns (p': seq<Row>)
    requires Inv(s) && AlikeFrom(s, key, v, p) && Enabled(s, e) && !DrawsOn(e, key)
    ensures AlikeFrom(Step(s, e), key, v, p')
  {
    p' := p;
    if e.Apply? {
      AlikeApply(s, e.row, key, v, p);
    } else if e.Crash? {
      p' := OnKey(s.worker.log, key);
      hide Inv, Run, W.MaxLsn, OnKey;
    } else if e.e.Send? {
      AlikeSend(s, e.e.lsn, key, v, p);
    } else if e.e.Draw? {
      AlikeDraw(s, e, key, v, p);
    } else {
      SameRows(s, e);
      hide Step, Enabled, Inv, OnKey, AllLeave;
    }
  }

  lemma AlikeDraw(s: State, e: Event, key: Bytes, v: Option<Bytes>, p: seq<Row>)
    requires AlikeFrom(s, key, v, p) && Enabled(s, e) && e.Worker? && e.e.Draw? && !DrawsOn(e, key)
    ensures AlikeFrom(Step(s, e), key, v, p)
  {
    hide OnKey, AllLeave;
  }

  lemma AlikeDone(s: State, key: Bytes, v: Option<Bytes>, p: seq<Row>)
    requires Inv(s) && AlikeFrom(s, key, v, p) && Done(s, key)
    ensures Agrees(s, key)
  {
    hide Inv, OnKey, Run, Lookup, AllWrites, On, AllLeave, Effect;
    var w := s.worker;
    InvLog(s);
    StoreOf(s);
    SameBeyond(s, key, |p|);
    assert w.sent == w.log + w.sent[|w.log|..];
    OnKeyNone(w.log, w.sent[|w.log|..], key);
    LastOnDecides(s.applied, key);
    LastOnDecides(w.log, key);
    hide Done, AlikeFrom;
    SameLast(OnKey(s.applied, key), OnKey(w.sent, key), p, v);
  }

  lemma SameLast(a: seq<Row>, b: seq<Row>, p: seq<Row>, v: Option<Bytes>)
    requires p <= a && p <= b && AllLeave(a[|p|..], v) && AllLeave(b[|p|..], v) && (|a| > |p| <==> |b| > |p|)
    requires (Last(a).Some? ==> IsWrite(Last(a).value)) && (Last(b).Some? ==> IsWrite(Last(b).value))
    ensures Effect(Last(a)) == Effect(Last(b))
  {
    if |a| > |p| {
      assert a[|p|..][|a| - |p| - 1] == a[|a| - 1];
      assert b[|p|..][|b| - |p| - 1] == b[|b| - 1];
    } else {
      assert a == p && b == p;
    }
  }

  // Done, there is something beyond the common beginning on both sides or on neither.
  lemma SameBeyond(s: State, key: Bytes, n: nat)
    requires Inv(s) && Done(s, key)
    requires var applied, sent := OnKey(s.applied, key), OnKey(s.worker.sent, key);
             n <= |applied| && n <= |sent| && applied[..n] == sent[..n]
    ensures |OnKey(s.applied, key)| > n <==> |OnKey(s.worker.sent, key)| > n
  {
    var applied, sent := OnKey(s.applied, key), OnKey(s.worker.sent, key);
    SentDistinct(s.worker);
    OnKeyDistinct(s.worker.sent, key);
    OnKeyDistinct(s.applied, key);
    if |applied| > n {
      OnKeyHas(s.applied, key, applied[n]);
      OnKeyHas(s.worker.sent, key, applied[n]);
      assert applied[n] in sent;
      FoundBeyond(applied, sent, n);
    }
    if |sent| > n {
      OnKeyHas(s.worker.sent, key, sent[n]);
      OnKeyHas(s.applied, key, sent[n]);
      assert sent[n] in applied;
      FoundBeyond(sent, applied, n);
    }
  }

  lemma FoundBeyond(a: seq<Row>, b: seq<Row>, n: nat)
    requires n < |a| && n <= |b| && a[..n] == b[..n] && a[n] in b
    requires forall i, j :: 0 <= i < j < |a| ==> a[i] != a[j]
    ensures |b| > n
  {
    var k :| 0 <= k < |b| && b[k] == a[n];
    assert forall i :: 0 <= i < n ==> b[..n][i] == a[..n][i];
    assert k >= n;
  }

  lemma {:induction false} AlikeRun(s: State, events: seq<Event>, key: Bytes, v: Option<Bytes>, p: seq<Row>)
    requires Inv(s) && AlikeFrom(s, key, v, p) && Allowed(s, events) && NoDrawOn(events, key)
    ensures Done(After(s, events), key) ==> Agrees(After(s, events), key)
    decreases |events|
  {
    if events == [] {
      if Done(s, key) {
        AlikeDone(s, key, v, p);
      }
    } else {
      hide Step, Enabled, Inv, AlikeFrom, Done, Agrees, DrawsOn;
      assert !DrawsOn(events[0], key);
      var p' := AlikeStep(s, events[0], key, v, p);
      StepInv(s, events[0]);
      AlikeRun(Step(s, events[0]), events[1..], key, v, p');
    }
  }

  lemma AlikeAfterDraw(s: State, draw: W.Event, key: Bytes, t: State, d: Row)
    requires CanWrite(s, draw, key) && NoConflict(s, key, RowEffect(D.DrawnRow(0, draw)))
    requires d == D.DrawnRow(s.worker.next + 1, draw) && IsWrite(d)
    requires t.applied == s.applied && t.worker.sent == s.worker.sent && t.worker.drawn == s.worker.drawn[d.lsn := d]
    ensures AlikeFrom(t, key, RowEffect(d), OnKey(s.applied, key))
  {
    hide OnKey, Live, Marshalable, AllLeave, On, IsWrite, Enabled, KeyOk;
    var v := RowEffect(d);
    DrawnAlike(s, key, v);
    SentAlike(s, key, v);
    hide Inv, NoConflict;
  }

  lemma DrawnAlike(s: State, key: Bytes, v: Option<Bytes>)
    requires Inv(s) && NoConflict(s, key, v)
    ensures forall lsn :: lsn in s.worker.drawn && On(s.worker.drawn[lsn], key) ==>
              IsWrite(s.worker.drawn[lsn]) && RowEffect(s.worker.drawn[lsn]) == v
  {
    hide AllWrites, Run, AppliedOk, AllPlaced, W.FuturesOk, RowEffect;
    forall lsn | lsn in s.worker.drawn && On(s.worker.drawn[lsn], key)
      ensures IsWrite(s.worker.drawn[lsn]) && RowEffect(s.worker.drawn[lsn]) == v
    {
      assert s.worker.drawn[lsn].lsn == lsn;
      assert UnderWay(s, key, s.worker.drawn[lsn]);
    }
  }

  lemma SentAlike(s: State, key: Bytes, v: Option<Bytes>)
    requires Inv(s) && KeyOk(s, key) && NoConflict(s, key, v)
    ensures var applied, sent := OnKey(s.applied, key), OnKey(s.worker.sent, key);
            applied <= sent && AllLeave(sent[|applied|..], v) && AllLeave(applied[|applied|..], v)
  {
    hide Inv, OnKey, On, KeyOk, RowEffect, IsWrite;
    var applied, sent := OnKey(s.applied, key), OnKey(s.worker.sent, key);
    LastNotApplied(s, key);
    if applied != sent {
      assert UnderWay(s, key, sent[|sent| - 1]);
    }
  }

  // If the rows applied on the key are not all those sent, the last one sent is missing.
  lemma LastNotApplied(s: State, key: Bytes)
    requires Inv(s) && KeyOk(s, key)
    ensures var applied, sent := OnKey(s.applied, key), OnKey(s.worker.sent, key);
            applied != sent ==>
              && sent != [] && IsWrite(sent[|sent| - 1]) && On(sent[|sent| - 1], key)
              && sent[|sent| - 1] in s.worker.sent && sent[|sent| - 1] !in s.applied
              && applied <= sent && sent[|applied|..] == [sent[|sent| - 1]]
  {
    var applied, sent := OnKey(s.applied, key), OnKey(s.worker.sent, key);
    if applied != sent {
      var last := sent[|sent| - 1];
      SentDistinct(s.worker);
      OnKeyDistinct(s.worker.sent, key);
      OnKeyHas(s.worker.sent, key, last);
      OnKeyHas(s.applied, key, last);
      hide OnKey;
      assert last !in applied;
    }
  }

  // The exact condition, at the moment a write is drawn and for everything that can follow: the key comes out right
  // whenever its rows are all logged and applied if and only if no write to it is under way that leaves another value.
  lemma DrawIsSafeExactlyWhen(s: State, draw: W.Event, key: Bytes)
    requires CanWrite(s, draw, key)
    ensures var t := Step(s, Worker(draw));
            (forall events :: Allowed(t, events) && NoDrawOn(events, key) && Done(After(t, events), key) ==>
               Agrees(After(t, events), key))
            <==> NoConflict(s, key, RowEffect(D.DrawnRow(0, draw)))
  {
    var t, d := DrawNow(s, draw, key);
    var v := RowEffect(D.DrawnRow(0, draw));
    assert RowEffect(d) == v;
    if NoConflict(s, key, v) {
      AlikeAfterDraw(s, draw, key, t, d);
      hide Step, Enabled, Inv, AlikeFrom, Done, Agrees, CanWrite;
      forall events | Allowed(t, events) && NoDrawOn(events, key) && Done(After(t, events), key)
        ensures Agrees(After(t, events), key)
      {
        AlikeRun(t, events, key, v, OnKey(s.applied, key));
      }
    } else {
      hide Step, Enabled, Inv, Done, Agrees, CanWrite, UnderWay, RowEffect;
      var r :| UnderWay(s, key, r) && RowEffect(r) != v;
      var events := Disagreement(s, draw, key, r);
    }
  }
}
