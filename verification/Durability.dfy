// What an answer of the WAL worker is worth (internal/database/wal/wal.go `Write`, `flush`): when a writer told OK
// has its row in the log, when a send is safe whatever happens next, and what a row that cannot be encoded does.
module Durability {
  import opened ByteCodec
  import opened WalRecord
  import opened LogStream
  import opened WalWorker

  predicate ToldOk(s: State, lsn: U64)
  {
    lsn in s.answers && s.answers[lsn]
  }

  predicate Truthful(s: State, lsn: U64)
  {
    ToldOk(s, lsn) ==> Has(s.log, lsn)
  }

  // Everyone told OK so far has their row in the log.
  predicate OkTold(s: State)
  {
    forall lsn :: ToldOk(s, lsn) ==> Has(s.log, lsn)
  }

  /* ---------- Who writes ---------- */

  // The segment manager encodes the whole buffer before it writes any of it: a flush succeeds exactly when every
  // buffered row can be encoded (`Wal.WAL.FlushWrite` derives this). Of another implementation of the writer
  // interface nothing is known.
  datatype Writer = AnyWriter | SegmentFiles

  predicate CanSucceed(w: Writer, buf: seq<Row>)
  {
    w.SegmentFiles? ==> Encodable(buf)
  }

  predicate CanFail(w: Writer, buf: seq<Row>)
  {
    w.SegmentFiles? ==> !Encodable(buf)
  }

  predicate Obeys(w: Writer, s: State, e: Event)
  {
    (e.WriteOk? ==> CanSucceed(w, s.buf)) && (e.WriteFails? ==> CanFail(w, s.buf))
  }

  predicate WrittenBy(w: Writer, s: State, events: seq<Event>)
    requires Allowed(s, events)
    decreases |events|
  {
    events == [] || (Obeys(w, s, events[0]) && WrittenBy(w, Step(s, events[0]), events[1..]))
  }

  lemma {:induction false} ByAnyWriter(s: State, events: seq<Event>)
    requires Allowed(s, events)
    ensures WrittenBy(AnyWriter, s, events)
    decreases |events|
  {
    hide Step, Enabled;
    if events != [] {
      ByAnyWriter(Step(s, events[0]), events[1..]);
    }
  }

  lemma {:induction false} WrittenCompose(w: Writer, s: State, a: seq<Event>, b: seq<Event>)
    requires Allowed(s, a) && Allowed(After(s, a), b) && WrittenBy(w, s, a) && WrittenBy(w, After(s, a), b)
    ensures Allowed(s, a + b) && After(s, a + b) == After(After(s, a), b) && WrittenBy(w, s, a + b)
    decreases |a|
  {
    hide Step, Enabled, Obeys;
    if a == [] {
      assert a + b == b;
    } else {
      WrittenCompose(w, Step(s, a[0]), a[1..], b);
      assert (a + b)[1..] == a[1..] + b;
    }
  }

  lemma OneEvent(w: Writer, s: State, e: Event)
    requires Enabled(s, e) && Obeys(w, s, e)
    ensures Allowed(s, [e]) && After(s, [e]) == Step(s, e) && WrittenBy(w, s, [e])
  {
    hide Step, Enabled, Obeys;
    assert [e][1..] == [];
    assert Allowed(Step(s, e), []) && WrittenBy(w, Step(s, e), []);
  }

  // What an asked-for step comes to over the segment files: nothing if it cannot happen, and a flush ends as it must.
  function Taken(s: State, e: Event): (events: seq<Event>)
    ensures |events| <= 1
    ensures events != [] ==> Enabled(s, events[0]) && Obeys(SegmentFiles, s, events[0])
  {
    if !Enabled(s, e) then []
    else if e.WriteOk? || e.WriteFails? then [if Encodable(s.buf) then WriteOk else WriteFails]
    else [e]
  }

  function Runs(s: State, schedule: seq<Event>): (events: seq<Event>)
    decreases |schedule|
  {
    if schedule == [] then []
    else
      var one := Taken(s, schedule[0]);
      one + Runs(if one == [] then s else Step(s, one[0]), schedule[1..])
  }

  lemma RunsStep(s: State, schedule: seq<Event>)
    requires schedule != []
    ensures var one := Taken(s, schedule[0]);
            Runs(s, schedule) ==
            if one == [] then Runs(s, schedule[1..]) else [one[0]] + Runs(Step(s, one[0]), schedule[1..])
  {
    hide Step, Enabled, Obeys, Taken;
    var one := Taken(s, schedule[0]);
    if one == [] {
      assert one + Runs(s, schedule[1..]) == Runs(s, schedule[1..]);
    } else {
      assert one == [one[0]];
    }
  }

  lemma {:induction false} RunsCanHappen(s: State, schedule: seq<Event>)
    ensures Allowed(s, Runs(s, schedule)) && WrittenBy(SegmentFiles, s, Runs(s, schedule))
    decreases |schedule|
  {
    hide Step, Enabled, Obeys, Taken, Runs;
    if schedule == [] {
      assert Runs(s, schedule) == [] by { NothingRuns(s); }
    } else {
      RunsStep(s, schedule);
      var one := Taken(s, schedule[0]);
      if one == [] {
        RunsCanHappen(s, schedule[1..]);
      } else {
        var rest := Runs(Step(s, one[0]), schedule[1..]);
        RunsCanHappen(Step(s, one[0]), schedule[1..]);
        assert ([one[0]] + rest)[1..] == rest;
      }
    }
  }

  lemma NothingRuns(s: State)
    ensures Runs(s, []) == []
  {
  }

  lemma {:induction false} RunsConcat(s: State, a: seq<Event>, b: seq<Event>)
    ensures Allowed(s, Runs(s, a)) && WrittenBy(SegmentFiles, s, Runs(s, a))
    ensures Runs(s, a + b) == Runs(s, a) + Runs(After(s, Runs(s, a)), b)
    decreases |a|
  {
    RunsCanHappen(s, a);
    hide Step, Enabled, Obeys, Taken, Runs, WrittenBy;
    if a == [] {
      NothingRuns(s);
      assert a + b == b;
    } else {
      var one := Taken(s, a[0]);
      RunsStep(s, a);
      RunsStep(s, a + b);
      assert (a + b)[1..] == a[1..] + b;
      if one == [] {
        RunsConcat(s, a[1..], b);
      } else {
        var t := Step(s, one[0]);
        RunsConcat(t, a[1..], b);
        assert ([one[0]] + Runs(t, a[1..]))[1..] == Runs(t, a[1..]);
      }
    }
  }

  // A schedule that can happen over the segment files happens.
  lemma {:induction false} RunsAsAsked(s: State, events: seq<Event>)
    requires Allowed(s, events) && WrittenBy(SegmentFiles, s, events)
    ensures Runs(s, events) == events
    decreases |events|
  {
    if events != [] {
      assert Taken(s, events[0]) == [events[0]];
      hide Step, Enabled, Obeys, Taken;
      RunsAsAsked(Step(s, events[0]), events[1..]);
      assert events == [events[0]] + events[1..];
    }
  }

  lemma LongerCannot(w: Writer, a: seq<Row>, b: seq<Row>)
    requires !CanSucceed(w, a)
    ensures !CanSucceed(w, a + b) && a != []
  {
    hide Marshalable;
    var i :| 0 <= i < |a| && !Marshalable(a[i]);
    assert (a + b)[i] == a[i];
  }

  /* ---------- When a send is safe ---------- */

  // What goes into the next flush before a row sent now.
  function Ahead(s: State): (rows: seq<Row>)
  {
    if s.buf != [] || s.queue == [] then s.buf else [s.queue[0]]
  }

  // The next answers cannot falsely include a row sent now: nothing is ahead of it and no flush is under way, or the
  // worker is draining the queue for its last flush, or what is ahead can never be written, so no OK will come.
  predicate SafeToSend(w: Writer, s: State)
  {
    match s.phase
    case Waiting => Ahead(s) == [] || !CanSucceed(w, Ahead(s))
    case Draining => true
    case Flushing(_) => !CanSucceed(w, s.buf)
    case Answering(ok, last) => !ok && (last || !CanSucceed(w, s.buf))
    case Stopped => true
  }

  // In the log, or not told OK and certain to be part of the next flush that succeeds, if any does.
  predicate Covered(w: Writer, s: State, lsn: U64)
  {
    Has(s.log, lsn) ||
    (!ToldOk(s, lsn) &&
     match s.phase
     case Waiting =>
       || Has(s.buf, lsn) || (s.buf == [] && s.queue != [] && s.queue[0].lsn == lsn)
       || !CanSucceed(w, Ahead(s))
     case Draining => Has(s.buf, lsn) || Has(s.queue, lsn) || !CanSucceed(w, Ahead(s))
     case Flushing(_) => Has(s.buf, lsn) || !CanSucceed(w, s.buf)
     case Answering(ok, last) => !ok && (last || Has(s.buf, lsn) || !CanSucceed(w, s.buf))
     case Stopped => true)
  }

  lemma HasConcat(a: seq<Row>, b: seq<Row>, lsn: U64)
    ensures Has(a + b, lsn) <==> Has(a, lsn) || Has(b, lsn)
  {
    if i :| 0 <= i < |a| && a[i].lsn == lsn {
      assert (a + b)[i].lsn == lsn;
    }
    if i :| 0 <= i < |b| && b[i].lsn == lsn {
      assert (a + b)[|a| + i].lsn == lsn;
    }
  }

  lemma HasFirst(rows: seq<Row>, lsn: U64)
    requires rows != []
    ensures Has(rows, lsn) <==> rows[0].lsn == lsn || Has(rows[1..], lsn)
  {
    assert rows == [rows[0]] + rows[1..];
    HasConcat([rows[0]], rows[1..], lsn);
    HasOne(rows[0], lsn);
  }

  lemma HasOne(r: Row, lsn: U64)
    ensures Has([r], lsn) <==> r.lsn == lsn
  {
    assert [r][0] == r;
  }

  // What the next flush starts with, whatever the phase.
  function Bound(s: State): (rows: seq<Row>)
  {
    if s.phase.Waiting? || s.phase.Draining? then Ahead(s) else s.buf
  }

  // What cannot be written stays ahead.
  lemma AheadStays(w: Writer, s: State, e: Event)
    requires Enabled(s, e) && Obeys(w, s, e) && !CanSucceed(w, Bound(s))
    ensures !CanSucceed(w, Bound(Step(s, e)))
  {
    LongerCannot(w, Bound(s), []);
    if e.Receive? || e.DrainOne? {
      TakenAhead(w, s, e);
    } else {
      StaysBound(w, s, e);
    }
  }

  lemma TakenAhead(w: Writer, s: State, e: Event)
    requires Enabled(s, e) && !CanSucceed(w, Bound(s)) && (e.Receive? || e.DrainOne?)
    ensures !CanSucceed(w, Bound(Step(s, e)))
  {
    var t := Step(s, e);
    assert t.buf == s.buf + [s.queue[0]] && t.buf != [];
    if s.buf != [] {
      LongerCannot(w, s.buf, [s.queue[0]]);
    } else {
      assert t.buf == [s.queue[0]];
    }
    hide CanSucceed;
  }

  lemma StaysBound(w: Writer, s: State, e: Event)
    requires Enabled(s, e) && Obeys(w, s, e) && !CanSucceed(w, Bound(s)) && Bound(s) != []
    requires !e.Receive? && !e.DrainOne?
    ensures Bound(Step(s, e)) == Bound(s)
  {
    hide PutAll, CanSucceed;
  }

  lemma CoveredStep(w: Writer, s: State, e: Event, lsn: U64)
    requires Covered(w, s, lsn) && Enabled(s, e) && Obeys(w, s, e)
    ensures Covered(w, Step(s, e), lsn)
  {
    hide Step, Enabled, Covered, Obeys;
    if e.Receive? || e.DrainOne? {
      CoveredTaken(w, s, e, lsn);
    } else if e.WriteOk? {
      CoveredWritten(w, s, lsn);
    } else if e.Answer? {
      CoveredAnswered(w, s, lsn);
    } else {
      CoveredElsewhere(w, s, e, lsn);
    }
  }

  lemma CoveredTaken(w: Writer, s: State, e: Event, lsn: U64)
    requires Covered(w, s, lsn) && Enabled(s, e) && Obeys(w, s, e) && (e.Receive? || e.DrainOne?)
    ensures Covered(w, Step(s, e), lsn)
  {
    var t := Step(s, e);
    HasFirst(s.queue, lsn);
    HasConcat(s.buf, [s.queue[0]], lsn);
    HasOne(s.queue[0], lsn);
    assert t.buf == s.buf + [s.queue[0]] && t.queue == s.queue[1..] && t.log == s.log && t.answers == s.answers;
    if !CanSucceed(w, Bound(s)) {
      AheadStays(w, s, e);
    }
    assert !Has([], lsn);
    hide Has, CanSucceed;
  }

  lemma CoveredWritten(w: Writer, s: State, lsn: U64)
    requires Covered(w, s, lsn) && Enabled(s, WriteOk) && Obeys(w, s, WriteOk)
    ensures Covered(w, Step(s, WriteOk), lsn)
  {
    HasConcat(s.log, s.buf, lsn);
    hide Has, CanSucceed;
  }

  lemma CoveredAnswered(w: Writer, s: State, lsn: U64)
    requires Covered(w, s, lsn) && Enabled(s, Answer) && Obeys(w, s, Answer)
    ensures Covered(w, Step(s, Answer), lsn)
  {
    if !CanSucceed(w, s.buf) {
      AheadStays(w, s, Answer);
    }
    hide Has, PutAll, CanSucceed;
  }

  lemma CoveredElsewhere(w: Writer, s: State, e: Event, lsn: U64)
    requires Covered(w, s, lsn) && Enabled(s, e) && Obeys(w, s, e)
    requires !e.Receive? && !e.DrainOne? && !e.WriteOk? && !e.Answer?
    ensures Covered(w, Step(s, e), lsn)
  {
    if e.Send? {
      HasConcat(s.queue, [s.drawn[e.lsn]], lsn);
    }
    assert !Has([], lsn);
    if !CanSucceed(w, Bound(s)) {
      AheadStays(w, s, e);
    }
    hide Has, CanSucceed;
  }

  lemma {:induction false} CoveredRun(w: Writer, s: State, events: seq<Event>, lsn: U64)
    requires Covered(w, s, lsn) && Allowed(s, events) && WrittenBy(w, s, events)
    ensures Truthful(After(s, events), lsn)
    decreases |events|
  {
    if events != [] {
      CoveredStep(w, s, events[0], lsn);
      hide Step, Enabled, Covered, Obeys;
      CoveredRun(w, Step(s, events[0]), events[1..], lsn);
    }
  }

  lemma SafeSendIsCovered(w: Writer, s: State, lsn: U64)
    requires Inv(s) && Enabled(s, Send(lsn)) && SafeToSend(w, s)
    ensures Covered(w, Step(s, Send(lsn)), lsn)
  {
    assert OpenFuture(s, lsn);
    assert s.drawn[lsn].lsn == lsn;
    HasConcat(s.queue, [s.drawn[lsn]], lsn);
    HasOne(s.drawn[lsn], lsn);
    if !CanSucceed(w, Ahead(s)) {
      LongerCannot(w, Ahead(s), []);
      assert Ahead(Step(s, Send(lsn))) == Ahead(s);
    }
    hide Has, CanSucceed;
  }

  // The other half: a row still queued while the worker is about to flush or answer.
  predicate Overtaken(s: State, lsn: U64)
  {
    Inv(s) && lsn in s.unregistered && Has(s.queue, lsn)
  }

  lemma {:induction false} NotLogged(s: State, lsn: U64)
    requires Conserved(s) && RowsOk(s) && Has(s.queue, lsn)
    ensures !Has(s.log, lsn) && !Has(s.log + s.buf, lsn)
  {
    var k :| 0 <= k < |s.queue| && s.queue[k].lsn == lsn;
    var ahead := s.log + s.buf;
    assert s.sent == ahead + s.queue;
    assert s.sent[|ahead| + k] == s.queue[k];
    forall i | 0 <= i < |ahead| ensures ahead[i].lsn != lsn {
      assert s.sent[i] == ahead[i];
    }
    HasConcat(s.log, s.buf, lsn);
  }

  lemma OvertakenStep(s: State, e: Event, lsn: U64)
    requires Overtaken(s, lsn) && Enabled(s, e) && (e.Tick? || e.Answer? || (e.Receive? && s.queue[0].lsn != lsn))
    ensures Overtaken(Step(s, e), lsn)
  {
    OneStepInv(s, e);
    if e.Receive? {
      HasFirst(s.queue, lsn);
    }
    hide Has, Inv, PutAll;
  }

  lemma CanAnswer(s: State)
    requires FuturesOk(s) && s.phase.Answering?
    ensures Enabled(s, Answer)
  {
    FuturesReady(s);
  }

  // Told a success its row has no part in: the answer is there to be taken.
  predicate FalselyTold(s: State, lsn: U64)
  {
    !Truthful(s, lsn) && Enabled(s, Take(lsn)) && s.replies[lsn].buffered[0]
  }

  lemma ToldWithTheRest(t: State, lsn: U64)
    requires FuturesOk(t) && Enabled(t, Answer) && t.phase.ok && lsn in t.futures && !Has(t.log, lsn)
    ensures FalselyTold(Step(t, Answer), lsn)
  {
    FuturesReady(t);
    PutAllOnce(t.replies, t.futures, true, lsn);
    assert [] + [true] == [true];
    hide PutAll, FuturesOk;
  }

  lemma RegisteredNow(s: State, lsn: U64) returns (t: State)
    requires Overtaken(s, lsn) && s.phase.Answering? && s.phase.ok
    ensures Enabled(s, Register(lsn)) && t == Step(s, Register(lsn)) && Enabled(t, Answer) && FuturesOk(t)
    ensures t.phase == s.phase && lsn in t.futures && !Has(t.log, lsn)
  {
    t := Step(s, Register(lsn));
    OneStepInv(s, Register(lsn));
    assert t.futures[|t.futures| - 1] == lsn;
    NotLogged(t, lsn);
    CanAnswer(t);
    hide Conserved, RowsOk, PhaseOk, RepliesOk, FuturesOk, Has;
  }

  // The worker's steps `a`, the registration, then the worker's steps `b`.
  predicate Misleads(w: Writer, s: State, lsn: U64, a: seq<Event>, b: seq<Event>)
  {
    var events := a + [Register(lsn)] + b;
    && Schedule(a) && Schedule(b) && Allowed(s, events) && WrittenBy(w, s, events)
    && FalselyTold(After(s, events), lsn)
  }

  lemma MisleadingRun(w: Writer, s: State, lsn: U64, a: seq<Event>, b: seq<Event>) returns (events: seq<Event>)
    requires Misleads(w, s, lsn, a, b)
    ensures Allowed(s, events) && WrittenBy(w, s, events) && !Truthful(After(s, events), lsn)
  {
    hide Allowed, After, WrittenBy, Truthful;
    events := a + [Register(lsn)] + b;
  }

  lemma MisleadsLater(w: Writer, s: State, e: Event, lsn: U64, a: seq<Event>, b: seq<Event>)
    requires Enabled(s, e) && Obeys(w, s, e) && ByWorker(e) && Misleads(w, Step(s, e), lsn, a, b)
    ensures Misleads(w, s, lsn, [e] + a, b)
  {
    hide Step, Enabled, Obeys, Allowed, After, WrittenBy, FalselyTold;
    OneEvent(w, s, e);
    WrittenCompose(w, s, [e], a + [Register(lsn)] + b);
    assert [e] + (a + [Register(lsn)] + b) == [e] + a + [Register(lsn)] + b;
  }

  // Registered just before the answers go out.
  lemma FalseOkFromAnswering(w: Writer, s: State, lsn: U64)
    requires Overtaken(s, lsn) && s.phase.Answering? && s.phase.ok
    ensures Misleads(w, s, lsn, [], [Answer])
  {
    hide Overtaken, Has, Allowed, After, WrittenBy, Step, Enabled, CanSucceed, CanFail, FuturesOk, FalselyTold;
    var t := RegisteredNow(s, lsn);
    ToldWithTheRest(t, lsn);
    OneEvent(w, s, Register(lsn));
    OneEvent(w, t, Answer);
    WrittenCompose(w, s, [Register(lsn)], [Answer]);
    assert [] + [Register(lsn)] + [Answer] == [Register(lsn)] + [Answer];
  }

  lemma FalseOkFromFlushing(w: Writer, s: State, lsn: U64)
    requires Overtaken(s, lsn) && s.phase.Flushing? && CanSucceed(w, s.buf)
    ensures Misleads(w, s, lsn, [WriteOk] + [], [Answer])
  {
    var t := Step(s, WriteOk);
    assert t.phase.Answering? && t.phase.ok && t.unregistered == s.unregistered && t.queue == s.queue;
    OneStepInv(s, WriteOk);
    hide Inv, Has, Step, Misleads, CanSucceed;
    FalseOkFromAnswering(w, t, lsn);
    MisleadsLater(w, s, WriteOk, lsn, [], [Answer]);
  }

  // From every unsafe phase the worker can come to flush while the row is still queued.
  lemma {:induction false} FalseOk(w: Writer, s: State, lsn: U64) returns (a: seq<Event>, b: seq<Event>)
    requires Overtaken(s, lsn)
    requires match s.phase
             case Waiting => (s.buf != [] || s.queue[0].lsn != lsn) && CanSucceed(w, Ahead(s))
             case Draining => false
             case Flushing(_) => CanSucceed(w, s.buf)
             case Answering(ok, last) => ok || (!last && CanSucceed(w, s.buf))
             case Stopped => false
    ensures Misleads(w, s, lsn, a, b)
    decreases match s.phase case Answering(_, _) => 3 case Waiting => if s.buf == [] then 2 else 1 case _ => 0
  {
    if s.phase.Flushing? {
      FalseOkFromFlushing(w, s, lsn);
      a, b := [WriteOk] + [], [Answer];
    } else if s.phase.Answering? && s.phase.ok {
      FalseOkFromAnswering(w, s, lsn);
      a, b := [], [Answer];
    } else {
      var e := if s.phase.Answering? then Answer else if s.buf != [] then Tick else Receive;
      if s.phase.Answering? {
        CanAnswer(s);
      }
      var t := Step(s, e);
      OvertakenStep(s, e, lsn);
      assert e.Receive? ==> t.buf == [s.queue[0]];
      hide Has, PutAll, Misleads, FuturesOk, RowsOk, Conserved, CanSucceed;
      a, b := FalseOk(w, t, lsn);
      MisleadsLater(w, s, e, lsn, a, b);
      a := [e] + a;
    }
  }

  lemma SentNow(s: State, lsn: U64)
    requires Inv(s) && Enabled(s, Send(lsn))
    ensures var t := Step(s, Send(lsn));
            Overtaken(t, lsn) && t.phase == s.phase && t.buf == s.buf && |t.queue| == |s.queue| + 1 &&
            (s.queue != [] ==> t.queue[0].lsn != lsn)
  {
    var t := Step(s, Send(lsn));
    OneStepInv(s, Send(lsn));
    assert s.drawn[lsn].lsn == lsn;
    assert t.queue[|s.queue|].lsn == lsn;
    if s.queue != [] {
      assert s.sent[|s.log + s.buf|] == s.queue[0];
    }
  }

  lemma UnsafeSend(w: Writer, s: State, lsn: U64) returns (a: seq<Event>, b: seq<Event>)
    requires Inv(s) && Enabled(s, Send(lsn)) && !SafeToSend(w, s)
    ensures Misleads(w, Step(s, Send(lsn)), lsn, a, b)
  {
    var t := Step(s, Send(lsn));
    SentNow(s, lsn);
    assert s.phase.Waiting? ==> Ahead(t) == Ahead(s);
    hide Conserved, FuturesOk, RowsOk, Step, Enabled, CanSucceed, RepliesOk, Misleads;
    a, b := FalseOk(w, t, lsn);
  }

  // The exact condition. In a state any run can reach, a row sent now is never falsely told OK, whatever the worker
  // and the other writers do next, if and only if the send is safe; over the segment files, and over any other writer.
  lemma SendIsSafeExactlyWhen(w: Writer, s: State, lsn: U64)
    requires Inv(s) && Enabled(s, Send(lsn))
    ensures (forall events :: Allowed(Step(s, Send(lsn)), events) && WrittenBy(w, Step(s, Send(lsn)), events) ==>
               Truthful(After(Step(s, Send(lsn)), events), lsn)) <==> SafeToSend(w, s)
  {
    var t := Step(s, Send(lsn));
    if SafeToSend(w, s) {
      SafeSendIsCovered(w, s, lsn);
      hide Step, Enabled, Inv, Covered, Truthful, Obeys;
      forall events | Allowed(t, events) && WrittenBy(w, t, events) ensures Truthful(After(t, events), lsn) {
        CoveredRun(w, t, events, lsn);
      }
    } else {
      hide Inv, Step, Enabled, Truthful, SafeToSend, Obeys;
      var a, b := UnsafeSend(w, s, lsn);
      var events := MisleadingRun(w, t, lsn, a, b);
    }
  }

  /* ---------- Disciplines for callers ---------- */

  datatype Discipline =
    | Safe(writer: Writer)    // the condition above
    | Patient(base: nat)      // every row sent since the start has been told OK, and the worker is not cancelled
    | Waited(base: nat)       // every row sent since the start has been answered, OK or not, and no cancel
    | Acknowledged(base: nat) // every row sent since the start has been told OK, cancelled or not
    | Alone                   // at most one row is not in the log, at any time
    | Free                    // no condition

  // Rows not in the log yet.
  function Unlogged(s: State): (n: nat)
  {
    |s.drawn| + |s.queue| + |s.buf|
  }

  // Whether a writer may go ahead. All but `Safe` and `Alone` read only what callers know; `base` rows were in the log
  // at start.
  predicate MayWrite(d: Discipline, s: State)
  {
    match d
    case Safe(w) => SafeToSend(w, s)
    case Patient(base) => !s.cancelled && forall i :: base <= i < |s.sent| ==> ToldOk(s, s.sent[i].lsn)
    case Waited(base) => !s.cancelled && forall i :: base <= i < |s.sent| ==> s.sent[i].lsn in s.answers
    case Acknowledged(base) => forall i :: base <= i < |s.sent| ==> ToldOk(s, s.sent[i].lsn)
    case Alone => s.queue == [] && s.buf == []
    case Free => true
  }

  predicate Meets(d: Discipline, s: State, e: Event)
    requires Enabled(s, e)
  {
    && (e.Send? ==> MayWrite(d, s))
    && (d.Alone? ==> Unlogged(s) <= 1 && Unlogged(Step(s, e)) <= 1)
  }

  predicate Follows(d: Discipline, s: State, events: seq<Event>)
    requires Allowed(s, events)
    decreases |events|
  {
    events == [] || (Meets(d, s, events[0]) && Follows(d, Step(s, events[0]), events[1..]))
  }

  predicate AllCovered(w: Writer, s: State)
  {
    forall i :: 0 <= i < |s.sent| ==> Covered(w, s, s.sent[i].lsn)
  }

  lemma AllCoveredStep(w: Writer, s: State, e: Event)
    requires Inv(s) && AllCovered(w, s) && Enabled(s, e) && Obeys(w, s, e) && (e.Send? ==> SafeToSend(w, s))
    ensures AllCovered(w, Step(s, e))
  {
    var t := Step(s, e);
    assert e.Send? ==> s.drawn[e.lsn].lsn == e.lsn;
    assert t.sent == if e.Send? then s.sent + [s.drawn[e.lsn]] else s.sent;
    hide Covered, Obeys;
    forall i | 0 <= i < |t.sent| ensures Covered(w, t, t.sent[i].lsn) {
      if i < |s.sent| {
        CoveredStep(w, s, e, s.sent[i].lsn);
      } else {
        SafeSendIsCovered(w, s, e.lsn);
      }
    }
  }

  lemma CoveredIsTruthful(w: Writer, s: State)
    requires RowsOk(s) && AllCovered(w, s)
    ensures OkTold(s)
  {
    forall lsn | ToldOk(s, lsn) ensures Has(s.log, lsn) {
      assert Has(s.sent, lsn);
      var i :| 0 <= i < |s.sent| && s.sent[i].lsn == lsn;
      assert Covered(w, s, s.sent[i].lsn);
    }
  }

  lemma StartCovered(w: Writer, batch: nat, log: seq<Row>)
    ensures AllCovered(w, Start(batch, log))
  {
    hide MaxLsn, CanSucceed;
    forall i | 0 <= i < |log| ensures Has(log, log[i].lsn) {
    }
  }

  lemma {:induction false} SafeRun(w: Writer, s: State, events: seq<Event>)
    requires Inv(s) && AllCovered(w, s) && Allowed(s, events) && WrittenBy(w, s, events) && Follows(Safe(w), s, events)
    ensures OkTold(After(s, events))
    decreases |events|
  {
    if events == [] {
      CoveredIsTruthful(w, s);
    } else {
      hide Step, Enabled, Inv, AllCovered, SafeToSend, OkTold, Obeys;
      AllCoveredStep(w, s, events[0]);
      OneStepInv(s, events[0]);
      SafeRun(w, Step(s, events[0]), events[1..]);
    }
  }

  // In every run whose sends are all safe, everyone told OK is in the log.
  lemma OkIsDurable(w: Writer, batch: nat, log: seq<Row>, events: seq<Event>)
    requires Startable(log) && Allowed(Start(batch, log), events)
    requires WrittenBy(w, Start(batch, log), events) && Follows(Safe(w), Start(batch, log), events)
    ensures OkTold(After(Start(batch, log), events))
  {
    StartInv(batch, log);
    StartCovered(w, batch, log);
    SafeRun(w, Start(batch, log), events);
  }

  lemma BehindTheLog(s: State, k: nat)
    requires Conserved(s) && RowsOk(s) && |s.log| <= k < |s.sent|
    ensures !Has(s.log, s.sent[k].lsn)
  {
    assert forall i :: 0 <= i < |s.log| ==> s.log[i] == s.sent[i];
  }

  // What callers who wait can rely on. Between a successful write and its answers, the last row written has not been
  // told OK. Over the segment files, a failure means that the buffer can never be written.
  predicate WaitOk(w: Writer, s: State, base: nat)
  {
    && base <= |s.log|
    && (s.phase == Answering(true, false) ==> |s.log| > base && !ToldOk(s, s.log[|s.log| - 1].lsn))
    && (w.SegmentFiles? ==> FailureIsFinal(s))
  }

  predicate FailureIsFinal(s: State)
  {
    && (s.phase.Answering? && !s.phase.ok ==> !Encodable(s.buf))
    && (forall lsn :: lsn in s.answers && !s.answers[lsn] ==> !Encodable(s.buf))
  }

  lemma WaitStep(w: Writer, s: State, e: Event, base: nat)
    requires Inv(s) && AllCovered(w, s) && WaitOk(w, s, base) && Enabled(s, e) && Obeys(w, s, e)
    ensures WaitOk(w, Step(s, e), base)
  {
    if w.SegmentFiles? {
      FinalStep(s, e);
    }
    if e.WriteOk? && s.buf != [] {
      LastWrittenIsUntold(w, s);
    }
    hide PutAll, AllCovered, RowsOk, FuturesOk, FailureIsFinal, Encodable, Conserved, RepliesOk;
  }

  lemma LastWrittenIsUntold(w: Writer, s: State)
    requires Inv(s) && AllCovered(w, s) && s.buf != []
    ensures var rows := s.log + s.buf;
            !ToldOk(s, rows[|rows| - 1].lsn)
  {
    hide FuturesOk, PhaseOk, RepliesOk, CanSucceed, Has;
    var k := |s.log + s.buf| - 1;
    assert s.sent[k] == (s.log + s.buf)[k];
    assert Covered(w, s, s.sent[k].lsn);
    BehindTheLog(s, k);
  }

  lemma FinalStep(s: State, e: Event)
    requires FailureIsFinal(s) && Enabled(s, e) && Obeys(SegmentFiles, s, e)
    ensures FailureIsFinal(Step(s, e))
  {
    if (e.Receive? || e.DrainOne?) && !Encodable(s.buf) {
      LongerCannot(SegmentFiles, s.buf, [s.queue[0]]);
    }
    hide PutAll, Encodable;
  }

  lemma ToldSendIsSafe(w: Writer, s: State, base: nat)
    requires Inv(s) && AllCovered(w, s) && WaitOk(w, s, base) && !s.cancelled
    requires forall i :: base <= i < |s.sent| ==> ToldOk(s, s.sent[i].lsn)
    ensures SafeToSend(w, s)
  {
    assert |s.log| == |s.sent| by {
      if |s.log| < |s.sent| {
        BehindTheLog(s, |s.log|);
      }
    }
    assert |s.log| > 0 ==> s.sent[|s.log| - 1] == s.log[|s.log| - 1];
    hide CanSucceed, Covered, FailureIsFinal;
  }

  lemma JammedSendIsSafe(s: State)
    requires PhaseOk(s) && !Encodable(s.buf)
    ensures SafeToSend(SegmentFiles, s)
  {
    assert s.buf != [];
  }

  lemma WaitedSendIsSafe(s: State, base: nat)
    requires Inv(s) && AllCovered(SegmentFiles, s) && WaitOk(SegmentFiles, s, base) && !s.cancelled
    requires forall i :: base <= i < |s.sent| ==> s.sent[i].lsn in s.answers
    ensures SafeToSend(SegmentFiles, s)
  {
    hide Encodable, AllCovered, SafeToSend;
    if !Encodable(s.buf) {
      JammedSendIsSafe(s);
    } else {
      assert forall lsn :: lsn in s.answers ==> ToldOk(s, lsn);
      ToldSendIsSafe(SegmentFiles, s, base);
    }
  }

  predicate WaitsOn(w: Writer, d: Discipline, base: nat)
  {
    d == Patient(base) || (d == Waited(base) && w.SegmentFiles?)
  }

  lemma {:induction false} WaitingRun(w: Writer, d: Discipline, s: State, events: seq<Event>, base: nat)
    requires Inv(s) && AllCovered(w, s) && WaitOk(w, s, base) && Allowed(s, events) && WrittenBy(w, s, events)
    requires WaitsOn(w, d, base) && Follows(d, s, events)
    ensures Follows(Safe(w), s, events)
    decreases |events|
  {
    if events != [] {
      var e := events[0];
      hide Step, Enabled, Inv, AllCovered, WaitOk, SafeToSend, ToldOk, Obeys;
      if e.Send? {
        if d.Patient? {
          ToldSendIsSafe(w, s, base);
        } else {
          WaitedSendIsSafe(s, base);
        }
      }
      AllCoveredStep(w, s, e);
      OneStepInv(s, e);
      WaitStep(w, s, e, base);
      WaitingRun(w, d, Step(s, e), events[1..], base);
    }
  }

  lemma WaitingStarts(w: Writer, batch: nat, log: seq<Row>)
    ensures WaitOk(w, Start(batch, log), |log|)
  {
    hide MaxLsn;
  }

  // A discipline callers can keep by themselves, whoever writes: send only after every earlier row was told OK, and
  // never after a cancel. Then OK means durable.
  lemma PatienceIsSafe(batch: nat, log: seq<Row>, events: seq<Event>)
    requires Startable(log) && Allowed(Start(batch, log), events)
    requires Follows(Patient(|log|), Start(batch, log), events)
    ensures OkTold(After(Start(batch, log), events))
  {
    hide Startable, Allowed, After, Follows, WrittenBy, Inv, AllCovered, WaitOk, OkTold, MaxLsn;
    var s := Start(batch, log);
    ByAnyWriter(s, events);
    StartInv(batch, log);
    StartCovered(AnyWriter, batch, log);
    WaitingStarts(AnyWriter, batch, log);
    WaitingRun(AnyWriter, Patient(|log|), s, events, |log|);
    OkIsDurable(AnyWriter, batch, log, events);
  }

  // Over the segment files it is enough to wait for every answer, whatever it is.
  lemma WaitingIsEnough(batch: nat, log: seq<Row>, events: seq<Event>)
    requires Startable(log) && Allowed(Start(batch, log), events)
    requires WrittenBy(SegmentFiles, Start(batch, log), events) && Follows(Waited(|log|), Start(batch, log), events)
    ensures OkTold(After(Start(batch, log), events))
  {
    hide Startable, Allowed, After, Follows, WrittenBy, Inv, AllCovered, WaitOk, OkTold, MaxLsn;
    var s := Start(batch, log);
    StartInv(batch, log);
    StartCovered(SegmentFiles, batch, log);
    WaitingStarts(SegmentFiles, batch, log);
    WaitingRun(SegmentFiles, Waited(|log|), s, events, |log|);
    OkIsDurable(SegmentFiles, batch, log, events);
  }

  /* ---------- Runs that show the disciplines are needed ---------- */

  predicate Reaches(w: Writer, d: Discipline, s: State, events: seq<Event>, t: State)
  {
    Allowed(s, events) && WrittenBy(w, s, events) && Follows(d, s, events) && After(s, events) == t
  }

  lemma {:induction false} Next(w: Writer, d: Discipline, s: State, events: seq<Event>, t: State, e: Event)
    requires Reaches(w, d, s, events, t) && Enabled(t, e) && Obeys(w, t, e) && Meets(d, t, e)
    ensures Reaches(w, d, s, events + [e], Step(t, e))
    decreases |events|
  {
    hide Step, Enabled, Meets, Obeys;
    if events == [] {
      OneEvent(w, t, e);
      assert [e][1..] == [] && events + [e] == [e];
      assert Follows(d, Step(t, e), []);
    } else {
      Next(w, d, Step(s, events[0]), events[1..], t, e);
      assert (events + [e])[1..] == events[1..] + [e];
    }
  }

  // The row a draw is for.
  function DrawnRow(lsn: U64, a: Event): (r: Row)
    requires a.Draw?
  {
    Row(lsn, a.methodId, a.args)
  }

  // A writer draws, sends and registers.
  lemma OneWriter(w: Writer, d: Discipline, s: State, events: seq<Event>, t: State, a: Event)
    returns (events': seq<Event>, t': State)
    requires Reaches(w, d, s, events, t) && t.drawn == map[] && t.unregistered == {} && |t.queue| < t.batch
    requires t.next < 0xFFFF_FFFF_FFFF_FFFF && MayWrite(d, t) && a.Draw?
    ensures var n := t.next + 1;
            events' == events + [a] + [Send(n)] + [Register(n)] && Reaches(w, d, s, events', t')
    ensures var n := t.next + 1;
            var r := DrawnRow(n, a);
            t' == t.(next := n, queue := t.queue + [r], futures := t.futures + [n], replies := t.replies[n := FRESH],
                     sent := t.sent + [r])
  {
    hide Reaches, Step, Enabled, Meets;
    var n: U64 := t.next + 1;
    var e2, t2 := DrawAndSend(w, d, s, events, t, a);
    t' := Registered(d, t2, n);
    Next(w, d, s, e2, t2, Register(n));
    events' := e2 + [Register(n)];
  }

  lemma DrawAndSend(w: Writer, d: Discipline, s: State, events: seq<Event>, t: State, a: Event)
    returns (events': seq<Event>, t': State)
    requires Reaches(w, d, s, events, t) && t.drawn == map[] && t.unregistered == {} && |t.queue| < t.batch
    requires t.next < 0xFFFF_FFFF_FFFF_FFFF && MayWrite(d, t) && a.Draw?
    ensures var n := t.next + 1;
            events' == events + [a] + [Send(n)] && Reaches(w, d, s, events', t')
    ensures var n := t.next + 1;
            var r := DrawnRow(n, a);
            t' == t.(next := n, queue := t.queue + [r], unregistered := {n}, replies := t.replies[n := FRESH],
                     sent := t.sent + [r])
    ensures d.Alone? ==> Unlogged(t') <= 1
  {
    hide Reaches, Step, Enabled, Meets;
    var n: U64 := t.next + 1;
    var t1 := Drawn(d, t, n, a);
    Next(w, d, s, events, t, a);
    t' := SentByWriter(d, t, t1, n, a);
    Next(w, d, s, events + [a], t1, Send(n));
    events' := events + [a] + [Send(n)];
  }

  lemma Drawn(d: Discipline, t: State, n: U64, a: Event) returns (t1: State)
    requires t.drawn == map[] && t.next < 0xFFFF_FFFF_FFFF_FFFF && n == t.next + 1 && MayWrite(d, t) && a.Draw?
    ensures Enabled(t, a) && Meets(d, t, a) && t1 == Step(t, a)
    ensures t1 == t.(next := n, drawn := map[n := DrawnRow(n, a)], replies := t.replies[n := FRESH])
  {
    t1 := Step(t, a);
    assert |t1.drawn| == 1;
  }

  lemma SentByWriter(d: Discipline, t: State, t1: State, n: U64, a: Event) returns (t2: State)
    requires MayWrite(d, t) && |t.queue| < t.batch && t.drawn == map[] && t.unregistered == {} && n == t.next + 1
    requires a.Draw? && t1 == t.(next := n, drawn := map[n := DrawnRow(n, a)], replies := t.replies[n := FRESH])
    ensures Enabled(t1, Send(n)) && Meets(d, t1, Send(n)) && t2 == Step(t1, Send(n))
    ensures t2 == t.(next := n, replies := t.replies[n := FRESH], queue := t.queue + [DrawnRow(n, a)],
                     unregistered := {n}, sent := t.sent + [DrawnRow(n, a)])
    ensures d.Alone? ==> Unlogged(t2) <= 1
  {
    assert |t1.drawn| == 1;
    hide CanSucceed;
    t2 := Step(t1, Send(n));
    assert t2.drawn == map[];
  }

  lemma Registered(d: Discipline, t2: State, n: U64) returns (t: State)
    requires t2.unregistered == {n} && (d.Alone? ==> Unlogged(t2) <= 1)
    ensures Enabled(t2, Register(n)) && Meets(d, t2, Register(n)) && t == Step(t2, Register(n))
    ensures t == t2.(unregistered := {}, futures := t2.futures + [n])
  {
    t := Step(t2, Register(n));
  }

  // The worker takes the only row in the queue and starts to flush, or does so when its ticker fires.
  lemma FlushStarts(w: Writer, d: Discipline, s: State, events: seq<Event>, t: State, e: Event) returns (t': State)
    requires Reaches(w, d, s, events, t) && t.phase.Waiting? && (d.Alone? ==> Unlogged(t) <= 1)
    requires (e.Receive? && |t.queue| == 1 >= t.batch) || (e.Tick? && t.buf != [])
    ensures Reaches(w, d, s, events + [e], t')
    ensures e.Tick? ==> t' == t.(phase := Flushing(false))
    ensures e.Receive? ==> t' == t.(queue := [], buf := t.buf + t.queue, phase := Flushing(false))
  {
    hide Reaches;
    t' := Step(t, e);
    Next(w, d, s, events, t, e);
  }

  lemma FlushWrites(w: Writer, d: Discipline, s: State, events: seq<Event>, t: State, e: Event) returns (t': State)
    requires Reaches(w, d, s, events, t) && t.phase.Flushing? && (d.Alone? ==> Unlogged(t) <= 1)
    requires (e.WriteOk? || e.WriteFails?) && Obeys(w, t, e)
    ensures Reaches(w, d, s, events + [e], t')
    ensures e.WriteOk? ==> t' == t.(log := t.log + t.buf, buf := [], phase := Answering(true, t.phase.last))
    ensures e.WriteFails? ==> t' == t.(phase := Answering(false, t.phase.last))
  {
    hide Reaches, Obeys;
    t' := Step(t, e);
    Next(w, d, s, events, t, e);
  }

  lemma FlushAnswers(w: Writer, d: Discipline, s: State, events: seq<Event>, t: State) returns (t': State)
    requires Reaches(w, d, s, events, t) && t.phase.Answering? && (d.Alone? ==> Unlogged(t) <= 1)
    requires forall i :: 0 <= i < |t.futures| ==> t.futures[i] in t.replies
    ensures Reaches(w, d, s, events + [Answer], t')
    ensures t' == t.(futures := [], replies := t'.replies, answers := t'.answers,
                     phase := if t.phase.last then Stopped else Waiting)
    ensures forall i :: 0 <= i < |t.futures| ==>
              t.futures[i] in t'.answers && t'.answers[t.futures[i]] == t.phase.ok
    ensures t.futures == [] ==> t'.answers == t.answers
  {
    hide Reaches, Step, CanSucceed, CanFail, MayWrite, Unlogged;
    AnswersGiven(t);
    t' := Step(t, Answer);
    assert Meets(d, t, Answer);
    Next(w, d, s, events, t, Answer);
  }

  lemma AnswersGiven(t: State)
    requires Enabled(t, Answer)
    ensures var t' := Step(t, Answer);
            && t' == t.(futures := [], replies := t'.replies, answers := t'.answers,
                        phase := if t.phase.last then Stopped else Waiting)
            && (forall i :: 0 <= i < |t.futures| ==>
                  t.futures[i] in t'.answers && t'.answers[t.futures[i]] == t.phase.ok)
            && (t.futures == [] ==> t'.answers == t.answers) && Unlogged(t') == Unlogged(t)
  {
    hide PutAll, Told;
    ToldEach(t.answers, t.futures, t.phase.ok);
  }

  lemma ToldEach(answers: map<U64, bool>, futures: seq<U64>, ok: bool)
    ensures var m := answers + Told(futures, ok);
            && (forall i :: 0 <= i < |futures| ==> futures[i] in m && m[futures[i]] == ok)
            && (futures == [] ==> m == answers)
  {
    if futures == [] {
      assert Told(futures, ok) == map[];
    }
  }

  lemma EncodableRow(r: Row)
    requires Marshalable(r)
    ensures Encodable([r]) && [] + [r] == [r]
  {
  }

  function Race(a: Event, b: Event): (events: seq<Event>)
  {
    [a, Send(1), Register(1), Receive, WriteOk, b, Send(2), Register(2), Answer]
  }

  // Even when at most one row is unlogged at any time: the second writer sends and registers between the write and
  // the answers of `flush`, and is told OK with its row still in the queue.
  lemma OkWithoutDurability(a: Event, b: Event)
    requires a.Draw? && b.Draw? && Marshalable(DrawnRow(1, a))
    ensures var s := Start(1, []);
            && Allowed(s, Race(a, b)) && WrittenBy(SegmentFiles, s, Race(a, b)) && Follows(Alone, s, Race(a, b))
            && ToldOk(After(s, Race(a, b)), 2) && !Has(After(s, Race(a, b)).log, 2)
  {
    var s := Start(1, []);
    assert Reaches(SegmentFiles, Alone, s, [], s);
    hide Step, Enabled, Allowed, After, Follows, MaxLsn, WrittenBy;
    var e3, t3 := WrittenAlone(s, a);
    var t5 := OvertakenInRace(s, e3, t3, a, b);
  }

  lemma OvertakenInRace(s: State, events: seq<Event>, t: State, a: Event, b: Event) returns (t': State)
    requires a.Draw? && b.Draw? && Reaches(SegmentFiles, Alone, s, events, t)
    requires t.phase == Answering(true, false) && t.batch == 1 && t.next == 1
    requires t.queue == [] && t.buf == [] && t.drawn == map[] && t.unregistered == {} && t.futures == [1]
    requires 1 in t.replies && t.log == [DrawnRow(1, a)]
    requires events == [a, Send(1), Register(1), Receive, WriteOk]
    ensures Reaches(SegmentFiles, Alone, s, Race(a, b), t') && ToldOk(t', 2) && !Has(t'.log, 2)
  {
    hide Step, Enabled, Reaches;
    var e1, t1 := OneWriter(SegmentFiles, Alone, s, events, t, b);
    assert t1.futures == [1, 2] && t1.futures[1] == 2;
    t' := FlushAnswers(SegmentFiles, Alone, s, e1, t1);
    assert e1 + [Answer] == Race(a, b);
  }

  lemma WrittenAlone(s: State, a: Event) returns (events: seq<Event>, t: State)
    requires a.Draw? && Marshalable(DrawnRow(1, a)) && s == Start(1, []) && Reaches(SegmentFiles, Alone, s, [], s)
    ensures events == [a, Send(1), Register(1), Receive, WriteOk] && Reaches(SegmentFiles, Alone, s, events, t)
    ensures t == s.(next := 1, log := [DrawnRow(1, a)], sent := [DrawnRow(1, a)], futures := [1],
                    replies := map[1 := FRESH], phase := Answering(true, false))
  {
    hide Step, Enabled, Reaches, Encodable, Marshalable;
    EncodableRow(DrawnRow(1, a));
    var e1, t1 := OneWriter(SegmentFiles, Alone, s, [], s, a);
    var t2 := FlushStarts(SegmentFiles, Alone, s, e1, t1, Receive);
    t := FlushWrites(SegmentFiles, Alone, s, e1 + [Receive], t2, WriteOk);
    events := e1 + [Receive] + [WriteOk];
  }

  function FailedThenFlushed(a: Event, b: Event): (events: seq<Event>)
  {
    [a, Send(1), Register(1), Receive, WriteFails, Answer, b, Send(2), Register(2), Tick, WriteOk, Answer]
  }

  // With a writer that can fail and then succeed, unlike the segment files, waiting for every answer is not enough:
  // after a failed flush its row is still buffered, so the next row can be told OK by the flush of the earlier one.
  lemma WaitingIsNotEnough(a: Event, b: Event)
    requires a.Draw? && b.Draw?
    ensures var s := Start(1, []);
            && Allowed(s, FailedThenFlushed(a, b)) && Follows(Waited(0), s, FailedThenFlushed(a, b))
            && ToldOk(After(s, FailedThenFlushed(a, b)), 2) && !Has(After(s, FailedThenFlushed(a, b)).log, 2)
            && !WrittenBy(SegmentFiles, s, FailedThenFlushed(a, b))
  {
    var s := Start(1, []);
    assert Reaches(AnyWriter, Waited(0), s, [], s);
    hide Step, Enabled, Allowed, After, Follows, MaxLsn, WrittenBy;
    var e1, t1 := FailedWrite(s, a);
    var t5 := FlushedForAnother(s, e1, t1, a, b);
    NotTheSegmentFiles(FailedThenFlushed(a, b), 2);
  }

  lemma NotTheSegmentFiles(events: seq<Event>, lsn: U64)
    requires Allowed(Start(1, []), events) && Follows(Waited(0), Start(1, []), events)
    requires !Truthful(After(Start(1, []), events), lsn)
    ensures !WrittenBy(SegmentFiles, Start(1, []), events)
  {
    hide Allowed, After, Follows, WrittenBy, MaxLsn, Has;
    if WrittenBy(SegmentFiles, Start(1, []), events) {
      WaitingIsEnough(1, [], events);
    }
  }

  lemma FlushedForAnother(s: State, events: seq<Event>, t: State, a: Event, b: Event) returns (t': State)
    requires a.Draw? && b.Draw? && Reaches(AnyWriter, Waited(0), s, events, t)
    requires t.phase == Waiting && t.batch == 1 && t.next == 1 && !t.cancelled
    requires t.queue == [] && t.drawn == map[] && t.unregistered == {} && t.futures == []
    requires t.buf == t.sent == [DrawnRow(1, a)] && t.log == [] && 1 in t.answers
    requires events == [a, Send(1), Register(1), Receive, WriteFails, Answer]
    ensures Reaches(AnyWriter, Waited(0), s, FailedThenFlushed(a, b), t') && ToldOk(t', 2) && !Has(t'.log, 2)
  {
    hide Step, Enabled, Reaches;
    var e2, t2 := OneWriter(AnyWriter, Waited(0), s, events, t, b);
    var t3 := FlushStarts(AnyWriter, Waited(0), s, e2, t2, Tick);
    var t4 := FlushWrites(AnyWriter, Waited(0), s, e2 + [Tick], t3, WriteOk);
    assert t4.futures == [2] && t4.futures[0] == 2 && t4.log == [DrawnRow(1, a)];
    t' := FlushAnswers(AnyWriter, Waited(0), s, e2 + [Tick] + [WriteOk], t4);
    assert e2 + [Tick] + [WriteOk] + [Answer] == FailedThenFlushed(a, b);
  }

  lemma FailedWrite(s: State, a: Event) returns (events: seq<Event>, t: State)
    requires a.Draw? && s == Start(1, []) && Reaches(AnyWriter, Waited(0), s, [], s)
    ensures events == [a, Send(1), Register(1), Receive, WriteFails, Answer]
    ensures Reaches(AnyWriter, Waited(0), s, events, t)
    ensures t == s.(next := 1, buf := [DrawnRow(1, a)], sent := [DrawnRow(1, a)], replies := t.replies,
            answers := t.answers)
    ensures 1 in t.answers
  {
    hide Step, Enabled, Reaches;
    var e1, t1 := OneWriter(AnyWriter, Waited(0), s, [], s, a);
    var t2 := FlushStarts(AnyWriter, Waited(0), s, e1, t1, Receive);
    var t3 := FlushWrites(AnyWriter, Waited(0), s, e1 + [Receive], t2, WriteFails);
    assert t3.futures == [1] && t3.futures[0] == 1;
    t := FlushAnswers(AnyWriter, Waited(0), s, e1 + [Receive] + [WriteFails], t3);
    events := e1 + [Receive] + [WriteFails] + [Answer];
  }

  function CancelledThenSent(a: Event): (events: seq<Event>)
  {
    [Cancel, DrainEnd, a, Send(1), Register(1), WriteOk, Answer]
  }

  // Nor is it enough to send one row at a time, each after the last OK: behind a cancel the last flush, of an empty
  // buffer, tells a row OK that nobody will ever write.
  lemma CancelLosesARow(a: Event)
    requires a.Draw?
    ensures var s := Start(1, []);
            && Allowed(s, CancelledThenSent(a)) && WrittenBy(SegmentFiles, s, CancelledThenSent(a))
            && Follows(Acknowledged(0), s, CancelledThenSent(a))
            && var t := After(s, CancelledThenSent(a));
               ToldOk(t, 1) && !Has(t.log, 1) && t.phase.Stopped?
  {
    var s := Start(1, []);
    assert Reaches(SegmentFiles, Acknowledged(0), s, [], s);
    hide Step, Enabled, Allowed, After, Follows, MaxLsn, WrittenBy;
    var t2 := CancelledEmpty(s);
    var t5 := ToldBehindCancel(s, t2, a);
  }

  lemma ToldBehindCancel(s: State, t: State, a: Event) returns (t': State)
    requires a.Draw? && Reaches(SegmentFiles, Acknowledged(0), s, [Cancel, DrainEnd], t)
    requires t.phase == Flushing(true) && t.batch == 1
    requires t.next == 0 && t.queue == [] && t.buf == [] && t.drawn == map[] && t.unregistered == {}
    requires t.futures == [] && t.sent == [] && t.log == []
    ensures Reaches(SegmentFiles, Acknowledged(0), s, CancelledThenSent(a), t')
    ensures ToldOk(t', 1) && !Has(t'.log, 1) && t'.phase.Stopped?
  {
    hide Step, Enabled, Reaches;
    var e3, t3 := OneWriter(SegmentFiles, Acknowledged(0), s, [Cancel, DrainEnd], t, a);
    var t4 := FlushWrites(SegmentFiles, Acknowledged(0), s, e3, t3, WriteOk);
    assert t4.futures == [1] && t4.futures[0] == 1 && t4.log == [];
    t' := FlushAnswers(SegmentFiles, Acknowledged(0), s, e3 + [WriteOk], t4);
    assert e3 + [WriteOk] + [Answer] == CancelledThenSent(a);
  }

  lemma CancelledEmpty(s: State) returns (t: State)
    requires s == Start(1, []) && Reaches(SegmentFiles, Acknowledged(0), s, [], s)
    ensures Reaches(SegmentFiles, Acknowledged(0), s, [Cancel, DrainEnd], t)
    ensures t == s.(phase := Flushing(true), cancelled := true)
  {
    hide Reaches;
    Next(SegmentFiles, Acknowledged(0), s, [], s, Cancel);
    assert [] + [Cancel] == [Cancel];
    Next(SegmentFiles, Acknowledged(0), s, [Cancel], Step(s, Cancel), DrainEnd);
    assert [Cancel] + [DrainEnd] == [Cancel, DrainEnd];
    t := Step(Step(s, Cancel), DrainEnd);
  }

  lemma {:induction false} StoppedIsFinal(s: State, events: seq<Event>)
    requires s.phase.Stopped? && Allowed(s, events)
    ensures After(s, events).log == s.log && After(s, events).answers == s.answers
    decreases |events|
  {
    if events != [] {
      var t := Step(s, events[0]);
      assert t.phase.Stopped? && t.log == s.log && t.answers == s.answers;
      hide Step, Enabled;
      StoppedIsFinal(t, events[1..]);
    }
  }

  /* ---------- Answers that come too early ---------- */

  function AnsweredTooEarly(a: Event): (events: seq<Event>)
  {
    [a, Send(1), Receive, WriteOk, Answer, Register(1)]
  }

  // A future is registered after its row is sent. With one writer alone, the flush of its row can be over by then: the
  // row is in the log and the writer is not answered.
  lemma LoggedAndNotAnswered(a: Event)
    requires a.Draw? && Marshalable(DrawnRow(1, a))
    ensures var s := Start(1, []);
            && Allowed(s, AnsweredTooEarly(a)) && WrittenBy(SegmentFiles, s, AnsweredTooEarly(a))
            && Follows(Patient(0), s, AnsweredTooEarly(a))
            && var t := After(s, AnsweredTooEarly(a));
               && t.log == [DrawnRow(1, a)] && t.futures == [1] && t.answers == map[]
               && t.phase.Waiting? && t.drawn == map[] && t.buf == [] && t.queue == []
  {
    var s, d := Start(1, []), Patient(0);
    assert Reaches(SegmentFiles, d, s, [], s);
    hide Step, Enabled, Allowed, After, Follows, MaxLsn, WrittenBy, Encodable, Marshalable;
    var e1, t1 := DrawAndSend(SegmentFiles, d, s, [], s, a);
    var t3 := WrittenUnanswered(s, e1, t1, a);
    var t4 := Registered(d, t3, 1);
    Next(SegmentFiles, d, s, e1 + [Receive] + [WriteOk] + [Answer], t3, Register(1));
    assert e1 + [Receive] + [WriteOk] + [Answer] + [Register(1)] == AnsweredTooEarly(a);
  }

  lemma WrittenUnanswered(s: State, events: seq<Event>, t: State, a: Event) returns (t': State)
    requires a.Draw? && Marshalable(DrawnRow(1, a)) && Reaches(SegmentFiles, Patient(0), s, events, t)
    requires t.phase == Waiting && t.batch == 1 && t.queue == [DrawnRow(1, a)] && t.buf == [] && t.log == []
    requires t.futures == []
    ensures Reaches(SegmentFiles, Patient(0), s, events + [Receive] + [WriteOk] + [Answer], t')
    ensures t' == t.(queue := [], log := [DrawnRow(1, a)], replies := t'.replies)
  {
    hide Step, Enabled, Reaches, Encodable, Marshalable;
    EncodableRow(DrawnRow(1, a));
    var t1 := FlushStarts(SegmentFiles, Patient(0), s, events, t, Receive);
    var t2 := FlushWrites(SegmentFiles, Patient(0), s, events + [Receive], t1, WriteOk);
    t' := FlushAnswers(SegmentFiles, Patient(0), s, events + [Receive] + [WriteOk], t2);
  }

  // From there nobody is answered until another row is drawn or the worker is cancelled: the writer times out.
  lemma {:induction false} NeverAnswered(s: State, events: seq<Event>)
    requires s.phase.Waiting? && s.queue == [] && s.buf == [] && s.drawn == map[] && Allowed(s, events)
    requires forall i :: 0 <= i < |events| ==> !events[i].Draw? && !events[i].Cancel?
    ensures After(s, events).answers == s.answers && After(s, events).log == s.log
    decreases |events|
  {
    if events != [] {
      var t := Step(s, events[0]);
      assert t.phase.Waiting? && t.queue == [] && t.buf == [] && t.drawn == map[];
      assert t.answers == s.answers && t.log == s.log;
      hide Step, Enabled;
      NeverAnswered(t, events[1..]);
    }
  }

  predicate NoAnswer(events: seq<Event>)
  {
    forall i :: 0 <= i < |events| ==> !events[i].Answer?
  }

  // Registered by now, or within these steps.
  predicate RegisteredIn(s: State, events: seq<Event>, lsn: U64)
  {
    lsn in s.futures || Register(lsn) in events
  }

  // Exactly when the flush that logs a row answers it: its future is registered before that flush comes to answer.
  lemma AnsweredByItsFlushExactlyWhen(s: State, between: seq<Event>, lsn: U64)
    requires Inv(s) && s.phase.Flushing? && Has(s.buf, lsn) && lsn !in s.answers
    requires Allowed(s, [WriteOk] + between + [Answer]) && NoAnswer(between)
    ensures var t := After(s, [WriteOk] + between + [Answer]);
            && Has(t.log, lsn)
            && (lsn in t.answers <==> RegisteredIn(s, between, lsn))
            && (lsn in t.answers ==> ToldOk(t, lsn))
  {
    var s1 := Step(s, WriteOk);
    HasConcat(s.log, s.buf, lsn);
    assert s1.log == s.log + s.buf && s1.futures == s.futures && s1.answers == s.answers;
    assert s1.phase == Answering(true, s.phase.last);
    var events := [WriteOk] + between + [Answer];
    assert events[0] == WriteOk && events[1..] == between + [Answer];
    hide Step, Enabled, Inv, Has;
    FlushAnswersThem(s1, between, lsn);
  }

  // While a flush is about to answer, only registrations change whom.
  lemma BetweenStep(s: State, e: Event, lsn: U64)
    requires s.phase.Answering? && Enabled(s, e) && !e.Answer?
    ensures var t := Step(s, e);
            && t.phase == s.phase && t.log == s.log && t.answers == s.answers
            && (lsn in t.futures <==> lsn in s.futures || e == Register(lsn))
  {
  }

  lemma AnswerStep(s: State, lsn: U64)
    requires s.phase.Answering? && s.phase.ok && Enabled(s, Answer) && lsn !in s.answers
    ensures var t := Step(s, Answer);
            t.log == s.log && (lsn in t.answers <==> lsn in s.futures) && (lsn in t.answers ==> ToldOk(t, lsn))
  {
    hide PutAll;
  }

  lemma {:induction false} FlushAnswersThem(s: State, between: seq<Event>, lsn: U64)
    requires s.phase.Answering? && s.phase.ok && Has(s.log, lsn) && lsn !in s.answers
    requires Allowed(s, between + [Answer]) && NoAnswer(between)
    ensures var t := After(s, between + [Answer]);
            && Has(t.log, lsn) && (lsn in t.answers <==> RegisteredIn(s, between, lsn))
            && (lsn in t.answers ==> ToldOk(t, lsn))
    decreases |between|
  {
    hide Step, Enabled, Has, ToldOk;
    if between == [] {
      assert between + [Answer] == [Answer] && [Answer][1..] == [];
      AnswerStep(s, lsn);
    } else {
      var e := between[0];
      assert (between + [Answer])[0] == e && (between + [Answer])[1..] == between[1..] + [Answer];
      BetweenStep(s, e, lsn);
      FlushAnswersThem(Step(s, e), between[1..], lsn);
      assert between == [e] + between[1..];
    }
  }

  /* ---------- A row the writer refuses ---------- */

  // A failed flush keeps its rows for the next one, so a row that cannot be encoded stays in the buffer for ever
  // and nothing is logged after it.
  lemma {:induction false} UnencodableRowStopsTheLog(s: State, events: seq<Event>, k: nat)
    requires k < |s.buf| && !Marshalable(s.buf[k])
    requires Allowed(s, events) && WrittenBy(SegmentFiles, s, events)
    ensures After(s, events).log == s.log
    decreases |events|
  {
    if events != [] {
      var t := Step(s, events[0]);
      assert t.log == s.log && k < |t.buf| && t.buf[k] == s.buf[k];
      hide Step, Enabled, Marshalable;
      UnencodableRowStopsTheLog(t, events[1..], k);
    }
  }

  // Exactly then: the rows buffered at the select can still be logged if and only if all of them can be encoded.
  lemma BufferIsLoggedExactlyWhen(s: State)
    requires s.phase.Waiting?
    ensures (exists events :: Allowed(s, events) && WrittenBy(SegmentFiles, s, events) &&
                              s.log + s.buf <= After(s, events).log)
            <==> Encodable(s.buf)
  {
    hide Marshalable;
    if Encodable(s.buf) {
      var events := FlushNow(s);
    } else {
      var k :| 0 <= k < |s.buf| && !Marshalable(s.buf[k]);
      forall events | Allowed(s, events) && WrittenBy(SegmentFiles, s, events) ensures After(s, events).log == s.log {
        UnencodableRowStopsTheLog(s, events, k);
      }
    }
  }

  lemma FlushNow(s: State) returns (events: seq<Event>)
    requires s.phase.Waiting? && Encodable(s.buf)
    ensures Allowed(s, events) && WrittenBy(SegmentFiles, s, events) && s.log + s.buf == After(s, events).log
  {
    hide Encodable, PutAll;
    if s.buf == [] {
      events := [];
      assert s.log + [] == s.log;
    } else {
      OneEvent(SegmentFiles, s, Tick);
      OneEvent(SegmentFiles, Step(s, Tick), WriteOk);
      WrittenCompose(SegmentFiles, s, [Tick], [WriteOk]);
      events := [Tick] + [WriteOk];
    }
  }

  // And such a row gets there: any command with an argument above 65535 bytes will do.
  lemma UnencodableRowIsBuffered(batch: nat, a: Event)
    requires batch >= 1 && a.Draw? && !Marshalable(DrawnRow(1, a))
    ensures var s, events := Start(batch, []), [a, Send(1), Receive];
            && Allowed(s, events) && WrittenBy(SegmentFiles, s, events)
            && After(s, events).buf == [DrawnRow(1, a)]
  {
    var s, d := Start(batch, []), Patient(0);
    assert Reaches(SegmentFiles, d, s, [], s);
    hide Step, Enabled, Allowed, After, Follows, MaxLsn, WrittenBy, Marshalable, Encodable;
    var e1, t1 := DrawAndSend(SegmentFiles, d, s, [], s, a);
    TakenIn(t1);
    Next(SegmentFiles, d, s, e1, t1, Receive);
    assert e1 + [Receive] == [a, Send(1), Receive];
  }

  lemma TakenIn(s: State)
    requires s.phase.Waiting? && |s.queue| == 1 && s.buf == []
    ensures Enabled(s, Receive) && Step(s, Receive).buf == s.queue
  {
  }

  /* ---------- Rows that read back ---------- */

  // What the segment manager lets into the log could be encoded.
  lemma {:induction false} LoggedRowsEncodable(s: State, events: seq<Event>)
    requires Encodable(s.log) && Allowed(s, events) && WrittenBy(SegmentFiles, s, events)
    ensures Encodable(After(s, events).log)
    decreases |events|
  {
    if events != [] {
      var t := Step(s, events[0]);
      assert t.log == if events[0].WriteOk? then s.log + s.buf else s.log;
      hide Step, Enabled, Marshalable;
      assert Encodable(t.log);
      LoggedRowsEncodable(t, events[1..]);
    }
  }

  predicate Small(r: Row)
  {
    |r.args| <= MAX_U16
  }

  predicate SmallDraws(events: seq<Event>)
  {
    forall i :: 0 <= i < |events| && events[i].Draw? ==> |events[i].args| <= MAX_U16
  }

  predicate SmallRows(s: State)
  {
    && (forall lsn :: lsn in s.drawn ==> Small(s.drawn[lsn]))
    && (forall i :: 0 <= i < |s.sent| ==> Small(s.sent[i]))
  }

  lemma FitsStep(s: State, e: Event)
    requires Conserved(s) && SmallRows(s) && AllFit(s.log) && Enabled(s, e)
    requires (e.Draw? ==> |e.args| <= MAX_U16) && (e.WriteOk? ==> Encodable(s.buf))
    ensures SmallRows(Step(s, e)) && AllFit(Step(s, e).log)
  {
    if e.WriteOk? {
      forall i | 0 <= i < |s.buf| ensures Fits(s.buf[i]) {
        assert s.sent[|s.log| + i] == s.buf[i];
        assert Small(s.sent[|s.log| + i]) && Marshalable(s.buf[i]);
      }
      AllFitConcat(s.log, s.buf);
    }
    hide Fits, AllFit, Marshalable, PutAll;
  }

  // With at most 65535 arguments a row, what the segment manager lets into the log fits, so it reads back.
  lemma {:induction false} LoggedRowsFit(s: State, events: seq<Event>)
    requires Inv(s) && SmallRows(s) && AllFit(s.log) && Allowed(s, events)
    requires WrittenBy(SegmentFiles, s, events) && SmallDraws(events)
    ensures AllFit(After(s, events).log) && SmallRows(After(s, events))
    decreases |events|
  {
    if events != [] {
      hide Step, Enabled, FuturesOk, RowsOk, Conserved, PhaseOk, SmallRows, AllFit, Encodable;
      FitsStep(s, events[0]);
      OneStepInv(s, events[0]);
      LoggedRowsFit(Step(s, events[0]), events[1..]);
    }
  }
}
