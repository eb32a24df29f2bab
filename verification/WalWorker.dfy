// internal/database/wal/wal.go: concurrent writers, the queue, the worker's buffer, and the answers to writers.
// `Write` is three steps (draw an LSN, send the row, register its future) and `flush` two (write, then answer
// whatever is registered by then), because other goroutines run in between.
module WalWorker {
  import opened ByteCodec
  import opened WalRecord

  datatype Phase =
    | Waiting                             // at the select
    | Draining                            // context cancelled, emptying the queue
    | Flushing(last: bool)                // about to call the writer
    | Answering(ok: bool, last: bool)     // the writer has returned
    | Stopped

  // The channel inside a future: room for one answer, closed once answered.
  datatype Reply = Reply(buffered: seq<bool>, closed: bool)

  const FRESH := Reply([], false)

  // A put on a full channel blocks and a put on a closed one panics.
  predicate CanPut(r: Reply)
  {
    r.buffered == [] && !r.closed
  }

  function Answered(r: Reply, ok: bool): (t: Reply)
  {
    Reply(r.buffered + [ok], true)
  }

  // A future is named by the LSN of its row. `sent` (after the rows found at start), `answers` and `cancelled` are
  // history: what the callers of `Write` know.
  datatype State = State(
    batch: nat, next: U64,
    drawn: map<U64, Row>, unregistered: set<U64>, futures: seq<U64>,
    queue: seq<Row>, buf: seq<Row>, phase: Phase,
    replies: map<U64, Reply>, log: seq<Row>,
    sent: seq<Row>, answers: map<U64, bool>, cancelled: bool)

  datatype Event =
    | Draw(methodId: Byte, args: seq<Bytes>)
    | Send(lsn: U64)
    | Register(lsn: U64)
    | Take(lsn: U64)       // a writer receives its answer
    | Receive
    | Tick
    | Cancel
    | DrainOne
    | DrainEnd
    | WriteOk
    | WriteFails
    | Answer

  /* ---------- The start ---------- */

  // The largest LSN of a log, which is where a restored generator goes on.
  function MaxLsn(rows: seq<Row>): (n: U64)
  {
    if rows == [] then 0
    else
      var m := MaxLsn(rows[..|rows| - 1]);
      if rows[|rows| - 1].lsn > m then rows[|rows| - 1].lsn else m
  }

  // So no logged LSN is drawn again.
  lemma {:induction false} MaxLsnCovers(log: seq<Row>, i: nat)
    requires i < |log|
    ensures log[i].lsn <= MaxLsn(log)
  {
    if i < |log| - 1 {
      MaxLsnCovers(log[..|log| - 1], i);
    }
  }

  lemma {:induction false} MaxLsnConcat(a: seq<Row>, b: seq<Row>)
    ensures MaxLsn(a + b) == if MaxLsn(a) > MaxLsn(b) then MaxLsn(a) else MaxLsn(b)
    decreases |b|
  {
    if b == [] {
      assert a + b == a;
    } else {
      MaxLsnConcat(a, b[..|b| - 1]);
      assert (a + b)[..|a + b| - 1] == a + b[..|b| - 1];
    }
  }

  // A worker starts over the log it finds, empty or not.
  function Start(batch: nat, log: seq<Row>): (s: State)
  {
    State(batch, MaxLsn(log), map[], {}, [], [], [], Waiting, map[], log, log, map[], false)
  }

  predicate Startable(log: seq<Row>)
  {
    DistinctLsns(log) && forall i :: 0 <= i < |log| ==> log[i].lsn >= 1
  }

  /* ---------- Steps ---------- */

  predicate Enabled(s: State, e: Event)
  {
    match e
    case Draw(_, _) => s.next < 0xFFFF_FFFF_FFFF_FFFF
    case Send(lsn) => lsn in s.drawn && |s.queue| < s.batch
    case Register(lsn) => lsn in s.unregistered
    case Take(lsn) => lsn in s.replies && s.replies[lsn].buffered != []
    case Receive => s.phase.Waiting? && s.queue != []
    case Tick => s.phase.Waiting?
    case Cancel => s.phase.Waiting?
    case DrainOne => s.phase.Draining? && s.queue != []
    case DrainEnd => s.phase.Draining? && s.queue == []
    case WriteOk => s.phase.Flushing?
    case WriteFails => s.phase.Flushing?
    case Answer => s.phase.Answering? && forall i :: 0 <= i < |s.futures| ==> s.futures[i] in s.replies
  }

  // The loop at the end of `flush`: put the result, close the channel, one future after the other.
  function PutAll(replies: map<U64, Reply>, futures: seq<U64>, ok: bool): (r: map<U64, Reply>)
    requires forall i :: 0 <= i < |futures| ==> futures[i] in replies
    ensures r.Keys == replies.Keys
  {
    if futures == [] then replies
    else
      var k := |futures| - 1;
      var before := PutAll(replies, futures[..k], ok);
      before[futures[k] := Answered(before[futures[k]], ok)]
  }

  function Told(futures: seq<U64>, ok: bool): (m: map<U64, bool>)
  {
    map lsn | lsn in futures :: ok
  }

  function Step(s: State, e: Event): (t: State)
    requires Enabled(s, e)
  {
    match e
    case Draw(methodId, args) =>
      var lsn: U64 := s.next + 1;
      s.(next := lsn, drawn := s.drawn[lsn := Row(lsn, methodId, args)], replies := s.replies[lsn := FRESH])
    case Send(lsn) =>
      s.(drawn := s.drawn - {lsn}, queue := s.queue + [s.drawn[lsn]],
         unregistered := s.unregistered + {lsn}, sent := s.sent + [s.drawn[lsn]])
    case Register(lsn) => s.(unregistered := s.unregistered - {lsn}, futures := s.futures + [lsn])
    case Take(lsn) =>
      s.(replies := s.replies[lsn := Reply(s.replies[lsn].buffered[1..], s.replies[lsn].closed)])
    case Receive =>
      var buf := s.buf + [s.queue[0]];
      s.(queue := s.queue[1..], buf := buf, phase := if |buf| >= s.batch then Flushing(false) else Waiting)
    case Tick => s.(phase := if |s.buf| > 0 then Flushing(false) else Waiting)
    case Cancel => s.(phase := Draining, cancelled := true)
    case DrainOne => s.(queue := s.queue[1..], buf := s.buf + [s.queue[0]])
    case DrainEnd => s.(phase := Flushing(true))
    case WriteOk => s.(log := s.log + s.buf, buf := [], phase := Answering(true, s.phase.last))
    case WriteFails => s.(phase := Answering(false, s.phase.last))
    case Answer =>
      s.(replies := PutAll(s.replies, s.futures, s.phase.ok), futures := [],
         answers := s.answers + Told(s.futures, s.phase.ok),
         phase := if s.phase.last then Stopped else Waiting)
  }

  // How a flush ends.
  function Wrote(s: State, ok: bool): (t: State)
    requires s.phase.Flushing?
  {
    Step(s, if ok then WriteOk else WriteFails)
  }

  // The steps of the worker goroutine, as opposed to those of a writer.
  predicate ByWorker(e: Event)
  {
    !e.Draw? && !e.Send? && !e.Register? && !e.Take?
  }

  predicate Schedule(events: seq<Event>)
  {
    forall i :: 0 <= i < |events| ==> ByWorker(events[i])
  }

  // Nothing queued or buffered, and no flush under way.
  predicate Clear(s: State)
  {
    s.phase.Waiting? && s.queue == [] && s.buf == []
  }

  /* ---------- Runs ---------- */

  predicate Allowed(s: State, events: seq<Event>)
    decreases |events|
  {
    events == [] || (Enabled(s, events[0]) && Allowed(Step(s, events[0]), events[1..]))
  }

  function After(s: State, events: seq<Event>): (t: State)
    requires Allowed(s, events)
    decreases |events|
  {
    if events == [] then s else After(Step(s, events[0]), events[1..])
  }

  predicate Has(rows: seq<Row>, lsn: U64)
  {
    exists i :: 0 <= i < |rows| && rows[i].lsn == lsn
  }

  /* ---------- Conservation, and one answer per future ---------- */

  predicate Conserved(s: State)
  {
    s.log + s.buf + s.queue == s.sent
  }

  // The futures still to be answered: each in one place, untouched, and not answered before.
  predicate FuturesOk(s: State)
  {
    && (forall i, j :: 0 <= i < j < |s.futures| ==> s.futures[i] != s.futures[j])
    && (forall i :: 0 <= i < |s.futures| ==> s.futures[i] !in s.unregistered && s.futures[i] !in s.drawn)
    && s.drawn.Keys !! s.unregistered
    && (forall i :: 0 <= i < |s.futures| ==> OpenFuture(s, s.futures[i]))
    && (forall lsn :: lsn in s.unregistered ==> OpenFuture(s, lsn))
    && (forall lsn :: lsn in s.drawn ==> OpenFuture(s, lsn))
    && (forall lsn :: lsn in s.answers ==> lsn in s.replies && s.replies[lsn].closed && lsn <= s.next)
    && (forall lsn :: lsn in s.replies ==> lsn <= s.next)
  }

  predicate OpenFuture(s: State, lsn: U64)
  {
    lsn in s.replies && CanPut(s.replies[lsn])
  }

  // Rows are sent once, and every registered future belongs to a row that was sent.
  predicate RowsOk(s: State)
  {
    && DistinctLsns(s.sent)
    && (forall i :: 0 <= i < |s.sent| ==> 1 <= s.sent[i].lsn <= s.next && s.sent[i].lsn !in s.drawn)
    && (forall lsn :: lsn in s.drawn ==> s.drawn[lsn].lsn == lsn && 1 <= lsn <= s.next)
    && (forall lsn :: lsn in s.unregistered ==> Has(s.sent, lsn))
    && (forall i :: 0 <= i < |s.futures| ==> Has(s.sent, s.futures[i]))
    && (forall lsn :: lsn in s.answers ==> Has(s.sent, lsn))
  }

  // An answer in a channel is the one that was given.
  predicate RepliesOk(s: State)
  {
    forall lsn :: lsn in s.replies && s.replies[lsn].buffered != [] ==>
      lsn in s.answers && s.replies[lsn].buffered == [s.answers[lsn]]
  }

  // A flush is under way only over a buffer that holds something, except the last one.
  predicate PhaseOk(s: State)
  {
    && (s.phase == Flushing(false) || s.phase == Answering(false, false) ==> s.buf != [])
    && (s.phase.Answering? && s.phase.ok ==> s.buf == [])
    && (s.cancelled <==>
          s.phase.Draining? || s.phase.Stopped? || ((s.phase.Flushing? || s.phase.Answering?) && s.phase.last))
  }

  predicate Inv(s: State)
  {
    Conserved(s) && FuturesOk(s) && RowsOk(s) && PhaseOk(s) && RepliesOk(s)
  }

  lemma StartInv(batch: nat, log: seq<Row>)
    requires Startable(log)
    ensures Inv(Start(batch, log))
  {
    forall i | 0 <= i < |log| ensures log[i].lsn <= MaxLsn(log) {
      MaxLsnCovers(log, i);
    }
    hide MaxLsn;
  }

  lemma StepKeepsPhase(s: State, e: Event)
    requires PhaseOk(s) && Enabled(s, e)
    ensures PhaseOk(Step(s, e))
  {
    hide PutAll;
  }

  lemma StepConserves(s: State, e: Event)
    requires Conserved(s) && Enabled(s, e)
    ensures Conserved(Step(s, e))
  {
    match e
    case Send(lsn) => assert s.log + s.buf + (s.queue + [s.drawn[lsn]]) == s.sent + [s.drawn[lsn]];
    case Receive => assert s.log + (s.buf + [s.queue[0]]) + s.queue[1..] == s.sent;
    case DrainOne => assert s.log + (s.buf + [s.queue[0]]) + s.queue[1..] == s.sent;
    case WriteOk => assert s.log + s.buf + [] + s.queue == s.sent;
    case _ =>
  }

  // Each listed future is put to once; the others are not touched.
  lemma {:induction false} PutAllOnce(replies: map<U64, Reply>, futures: seq<U64>, ok: bool, lsn: U64)
    requires forall i :: 0 <= i < |futures| ==> futures[i] in replies
    requires forall i, j :: 0 <= i < j < |futures| ==> futures[i] != futures[j]
    requires lsn in replies
    ensures PutAll(replies, futures, ok)[lsn] == if lsn in futures then Answered(replies[lsn], ok) else replies[lsn]
    decreases |futures|
  {
    if futures != [] {
      var k := |futures| - 1;
      PutAllOnce(replies, futures[..k], ok, lsn);
      assert futures == futures[..k] + [futures[k]];
      if lsn == futures[k] {
        assert lsn !in futures[..k];
      }
    }
  }

  lemma AnswerKeepsFutures(s: State)
    requires FuturesOk(s) && Enabled(s, Answer)
    ensures FuturesOk(Step(s, Answer))
  {
    hide CanPut;
    var t := Step(s, Answer);
    forall lsn | lsn in s.replies
      ensures t.replies[lsn] == if lsn in s.futures then Answered(s.replies[lsn], s.phase.ok) else s.replies[lsn]
    {
      PutAllOnce(s.replies, s.futures, s.phase.ok, lsn);
    }
    assert forall i :: 0 <= i < |s.futures| ==> OpenFuture(s, s.futures[i]);
    hide PutAll;
    forall lsn | lsn in s.unregistered ensures OpenFuture(t, lsn) {
      assert OpenFuture(s, lsn);
    }
    forall lsn | lsn in s.drawn ensures OpenFuture(t, lsn) {
      assert OpenFuture(s, lsn);
    }
  }

  lemma StepKeepsFutures(s: State, e: Event)
    requires FuturesOk(s) && RowsOk(s) && Enabled(s, e)
    ensures FuturesOk(Step(s, e))
  {
    hide FuturesOk, RowsOk;
    match e
    case Answer => AnswerKeepsFutures(s);
    case Draw(_, _) => DrawKeepsFutures(s, e);
    case Send(_) => WriterKeepsFutures(s, e);
    case Register(_) => WriterKeepsFutures(s, e);
    case Take(_) => WriterKeepsFutures(s, e);
    case _ => WorkerKeepsFutures(s, e);
  }

  lemma WriterKeepsFutures(s: State, e: Event)
    requires FuturesOk(s) && Enabled(s, e) && (e.Send? || e.Register? || e.Take?)
    ensures FuturesOk(Step(s, e))
  {
  }

  // The worker's own steps before answering leave every future alone.
  lemma WorkerKeepsFutures(s: State, e: Event)
    requires FuturesOk(s) && Enabled(s, e) && ByWorker(e) && !e.Answer?
    ensures FuturesOk(Step(s, e))
  {
    hide FuturesOk, Step, Enabled;
    WorkerLeavesFutures(s, e);
    SameFutures(s, Step(s, e));
  }

  lemma WorkerLeavesFutures(s: State, e: Event)
    requires Enabled(s, e) && ByWorker(e) && !e.Answer?
    ensures var t := Step(s, e);
            && t.futures == s.futures && t.unregistered == s.unregistered && t.drawn == s.drawn
            && t.replies == s.replies && t.answers == s.answers && t.next == s.next
  {
  }

  lemma SameFutures(s: State, t: State)
    requires FuturesOk(s) && t.futures == s.futures && t.unregistered == s.unregistered && t.drawn == s.drawn
    requires t.replies == s.replies && t.answers == s.answers && t.next == s.next
    ensures FuturesOk(t)
  {
    assert forall lsn :: OpenFuture(t, lsn) <==> OpenFuture(s, lsn);
    hide OpenFuture;
  }

  lemma DrawKeepsFutures(s: State, e: Event)
    requires FuturesOk(s) && RowsOk(s) && Enabled(s, e) && e.Draw?
    ensures FuturesOk(Step(s, e))
  {
    hide CanPut, RowsOk;
    var t := Step(s, e);
    assert t.next !in s.replies;
    assert t.replies.Keys == s.replies.Keys + {t.next};
    assert forall lsn :: OpenFuture(s, lsn) ==> OpenFuture(t, lsn);
    assert OpenFuture(t, t.next) by {
      assert CanPut(FRESH) by { CanPutFresh(); }
    }
  }

  lemma CanPutFresh()
    ensures CanPut(FRESH)
  {
  }

  lemma HasMore(rows: seq<Row>, r: Row, lsn: U64)
    ensures Has(rows + [r], lsn) <==> Has(rows, lsn) || r.lsn == lsn
  {
    if Has(rows, lsn) {
      var i :| 0 <= i < |rows| && rows[i].lsn == lsn;
      assert (rows + [r])[i].lsn == lsn;
    }
    assert (rows + [r])[|rows|] == r;
  }

  lemma StepKeepsRows(s: State, e: Event)
    requires FuturesOk(s) && RowsOk(s) && Enabled(s, e)
    ensures RowsOk(Step(s, e))
  {
    if e.Send? {
      forall lsn ensures Has(s.sent + [s.drawn[e.lsn]], lsn) <==> Has(s.sent, lsn) || lsn == e.lsn {
        HasMore(s.sent, s.drawn[e.lsn], lsn);
      }
    }
    hide Has, PutAll, OpenFuture;
  }

  lemma StepKeepsReplies(s: State, e: Event)
    requires FuturesOk(s) && RepliesOk(s) && Enabled(s, e)
    ensures RepliesOk(Step(s, e))
  {
    if e.Answer? {
      AnswerKeepsReplies(s);
    } else if e.Draw? {
      assert Step(s, e).next !in s.replies;
    }
    hide FuturesOk, PutAll;
  }

  lemma AnswerKeepsReplies(s: State)
    requires FuturesOk(s) && RepliesOk(s) && Enabled(s, Answer)
    ensures RepliesOk(Step(s, Answer))
  {
    hide PutAll;
    var t := Step(s, Answer);
    FuturesReady(s);
    forall lsn | lsn in t.replies && t.replies[lsn].buffered != []
      ensures lsn in t.answers && t.replies[lsn].buffered == [t.answers[lsn]]
    {
      PutAllOnce(s.replies, s.futures, s.phase.ok, lsn);
      if lsn in s.futures {
        assert [] + [s.phase.ok] == [s.phase.ok];
      }
    }
  }

  lemma OneStepInv(s: State, e: Event)
    requires Inv(s) && Enabled(s, e)
    ensures Inv(Step(s, e))
  {
    hide Step, Enabled, FuturesOk, RowsOk, Conserved, PhaseOk, RepliesOk;
    StepConserves(s, e);
    StepKeepsFutures(s, e);
    StepKeepsRows(s, e);
    StepKeepsPhase(s, e);
    StepKeepsReplies(s, e);
  }

  lemma {:induction false} RunInv(s: State, events: seq<Event>)
    requires Inv(s) && Allowed(s, events)
    ensures Inv(After(s, events))
    decreases |events|
  {
    hide Step, Enabled, Inv;
    if events != [] {
      OneStepInv(s, events[0]);
      RunInv(Step(s, events[0]), events[1..]);
    }
  }

  // Conservation over whole runs: what was sent is what was written, then buffered, then queued, in that order.
  lemma SentIsLogBufferQueue(batch: nat, log: seq<Row>, events: seq<Event>)
    requires Startable(log) && Allowed(Start(batch, log), events)
    ensures var s := After(Start(batch, log), events);
            s.log + s.buf + s.queue == s.sent && DistinctLsns(s.sent)
  {
    StartInv(batch, log);
    RunInv(Start(batch, log), events);
  }

  // No future is ever answered twice, and no answer can block or panic: whenever `flush` comes to answer,
  // each registered future is listed once, still open and empty, and has no answer yet.
  lemma AnswersNeverBlock(batch: nat, log: seq<Row>, events: seq<Event>)
    requires Startable(log) && Allowed(Start(batch, log), events)
    ensures var s := After(Start(batch, log), events);
            forall i :: 0 <= i < |s.futures| ==>
              && s.futures[i] in s.replies && CanPut(s.replies[s.futures[i]])
              && s.futures[i] !in s.answers
              && (forall j :: 0 <= j < |s.futures| && j != i ==> s.futures[j] != s.futures[i])
  {
    StartInv(batch, log);
    RunInv(Start(batch, log), events);
    hide Allowed, After, Inv;
    NotYetAnswered(After(Start(batch, log), events));
  }

  // A future whose answer has been taken.
  predicate Spent(s: State, lsn: U64)
  {
    lsn in s.replies && s.replies[lsn] == Reply([], true)
  }

  lemma TakeSpends(s: State, lsn: U64)
    requires Inv(s) && Enabled(s, Take(lsn))
    ensures Spent(Step(s, Take(lsn)), lsn)
  {
    hide RowsOk, PhaseOk, Conserved;
  }

  lemma SpentStays(s: State, e: Event, lsn: U64)
    requires Inv(s) && Enabled(s, e) && Spent(s, lsn)
    ensures Spent(Step(s, e), lsn) && e != Take(lsn)
  {
    hide RowsOk, PhaseOk, Conserved, RepliesOk, PutAll;
    if e.Answer? {
      FuturesReady(s);
      assert forall i :: 0 <= i < |s.futures| ==> OpenFuture(s, s.futures[i]);
      PutAllOnce(s.replies, s.futures, s.phase.ok, lsn);
    }
  }

  // A writer that has taken its answer finds nothing more there, whatever happens.
  lemma {:induction false} TakenOnce(s: State, events: seq<Event>, lsn: U64)
    requires Inv(s) && Spent(s, lsn) && Allowed(s, events)
    ensures Take(lsn) !in events
    decreases |events|
  {
    hide Step, Enabled, Inv, Spent;
    if events != [] {
      SpentStays(s, events[0], lsn);
      OneStepInv(s, events[0]);
      TakenOnce(Step(s, events[0]), events[1..], lsn);
      assert events == [events[0]] + events[1..];
    }
  }

  lemma {:induction false} TakenOnceFrom(s: State, events: seq<Event>, i: nat, j: nat)
    requires Inv(s) && Allowed(s, events) && i < j < |events| && events[i].Take?
    ensures events[j] != events[i]
    decreases i
  {
    hide Step, Enabled, Inv, Spent;
    OneStepInv(s, events[0]);
    if i == 0 {
      TakeSpends(s, events[0].lsn);
      TakenOnce(Step(s, events[0]), events[1..], events[0].lsn);
      assert events[j] == events[1..][j - 1];
    } else {
      TakenOnceFrom(Step(s, events[0]), events[1..], i - 1, j - 1);
    }
  }

  // In every run each answer is taken at most once.
  lemma AnswerTakenOnce(batch: nat, log: seq<Row>, events: seq<Event>, i: nat, j: nat)
    requires Startable(log) && Allowed(Start(batch, log), events) && i < j < |events| && events[i].Take?
    ensures events[j] != events[i]
  {
    StartInv(batch, log);
    hide Allowed, Inv;
    TakenOnceFrom(Start(batch, log), events, i, j);
  }

  lemma NotYetAnswered(s: State)
    requires Inv(s)
    ensures forall i :: 0 <= i < |s.futures| ==>
              && s.futures[i] in s.replies && CanPut(s.replies[s.futures[i]])
              && s.futures[i] !in s.answers
              && (forall j :: 0 <= j < |s.futures| && j != i ==> s.futures[j] != s.futures[i])
  {
    hide Conserved, RowsOk;
    forall i | 0 <= i < |s.futures| ensures s.futures[i] !in s.answers && OpenFuture(s, s.futures[i]) {
      assert OpenFuture(s, s.futures[i]);
    }
  }

  // What `flush` relies on when it answers.
  lemma FuturesReady(s: State)
    requires FuturesOk(s)
    ensures forall i :: 0 <= i < |s.futures| ==> s.futures[i] in s.replies && CanPut(s.replies[s.futures[i]])
    ensures forall i, j :: 0 <= i < j < |s.futures| ==> s.futures[i] != s.futures[j]
  {
    assert forall i :: 0 <= i < |s.futures| ==> OpenFuture(s, s.futures[i]);
  }

  /* ---------- The buffer bound ---------- */

  predicate NoFailure(events: seq<Event>)
  {
    forall i :: 0 <= i < |events| ==> !events[i].WriteFails?
  }

  predicate BufferOk(s: State)
  {
    && s.batch > 0
    && (s.phase.Waiting? ==> |s.buf| < s.batch)
    && (s.phase.Answering? ==> s.buf == [])
  }

  lemma BufferStep(s: State, e: Event)
    requires BufferOk(s) && Enabled(s, e) && !e.WriteFails?
    ensures BufferOk(Step(s, e))
  {
    hide PutAll;
  }

  lemma {:induction false} BufferStaysBelowBatch(s: State, events: seq<Event>)
    requires BufferOk(s) && Allowed(s, events) && NoFailure(events)
    ensures BufferOk(After(s, events))
    decreases |events|
  {
    if events != [] {
      hide Step, Enabled, BufferOk;
      BufferStep(s, events[0]);
      BufferStaysBelowBatch(Step(s, events[0]), events[1..]);
    }
  }

  /* ---------- Log order ---------- */

  // Every send takes an LSN above all those sent before.
  predicate SendsInOrder(s: State, events: seq<Event>)
    requires Allowed(s, events)
    decreases |events|
  {
    events == [] ||
    ((events[0].Send? ==> forall i :: 0 <= i < |s.sent| ==> s.sent[i].lsn < events[0].lsn)
     && SendsInOrder(Step(s, events[0]), events[1..]))
  }

  lemma {:induction false} SentGrows(s: State, events: seq<Event>)
    requires Allowed(s, events)
    ensures s.sent <= After(s, events).sent
    decreases |events|
  {
    if events != [] {
      var t := Step(s, events[0]);
      assert s.sent <= t.sent;
      hide Step, Enabled;
      SentGrows(t, events[1..]);
    }
  }

  lemma OneSendInOrder(s: State, e: Event)
    requires RowsOk(s) && InLsnOrder(s.sent) && Enabled(s, e)
    ensures InLsnOrder(Step(s, e).sent) <==> (e.Send? ==> forall i :: 0 <= i < |s.sent| ==> s.sent[i].lsn < e.lsn)
  {
    if e.Send? {
      var t := Step(s, e);
      if InLsnOrder(t.sent) {
        forall i | 0 <= i < |s.sent| ensures s.sent[i].lsn < e.lsn {
          assert t.sent[i].lsn < t.sent[|s.sent|].lsn;
        }
      }
    }
  }

  lemma {:induction false} OrderedExactlyWhen(s: State, events: seq<Event>)
    requires Inv(s) && InLsnOrder(s.sent) && Allowed(s, events)
    ensures InLsnOrder(After(s, events).sent) <==> SendsInOrder(s, events)
    decreases |events|
  {
    hide Step, Enabled, FuturesOk, RowsOk, Conserved, PhaseOk, InLsnOrder;
    if events != [] {
      var t := Step(s, events[0]);
      OneSendInOrder(s, events[0]);
      OneStepInv(s, events[0]);
      if InLsnOrder(t.sent) {
        OrderedExactlyWhen(t, events[1..]);
      } else {
        SentGrows(t, events[1..]);
        OrderOfPrefix(t.sent, After(t, events[1..]).sent);
      }
    }
  }

  lemma OrderOfPrefix(a: seq<Row>, b: seq<Row>)
    requires a <= b
    ensures InLsnOrder(b) ==> InLsnOrder(a)
  {
  }

  // Rows travel in LSN order exactly when they are sent in LSN order, and then they are logged in that order,
  // whatever else interleaves.
  lemma LogInLsnOrder(batch: nat, log: seq<Row>, events: seq<Event>)
    requires Startable(log) && InLsnOrder(log) && Allowed(Start(batch, log), events)
    ensures var s := After(Start(batch, log), events);
            && (InLsnOrder(s.sent) <==> SendsInOrder(Start(batch, log), events))
            && (SendsInOrder(Start(batch, log), events) ==> InLsnOrder(s.log))
            && (forall i :: 0 <= i < |s.log| ==> s.log[i].lsn >= 1)
  {
    StartInv(batch, log);
    OrderedExactlyWhen(Start(batch, log), events);
    RunInv(Start(batch, log), events);
    hide FuturesOk, RowsOk, Conserved, InLsnOrder, Allowed, After, SendsInOrder;
    LogIsFirst(After(Start(batch, log), events));
  }

  lemma LogIsFirst(s: State)
    requires Conserved(s) && RowsOk(s)
    ensures InLsnOrder(s.sent) ==> InLsnOrder(s.log)
    ensures forall i :: 0 <= i < |s.log| ==> s.log[i].lsn >= 1
  {
    assert forall i :: 0 <= i < |s.log| ==> s.log[i] == s.sent[i];
  }

  // The LSN draw and the send are two steps: two writers can log LSN 2 before LSN 1.
  lemma SendsCanOvertake(a: Event, b: Event)
    requires a.Draw? && b.Draw?
    ensures var events := [a, b, Send(2), Send(1), Receive, Receive, WriteOk];
            Allowed(Start(2, []), events) && !InLsnOrder(After(Start(2, []), events).log)
  {
    var r1, r2 := Row(1, a.methodId, a.args), Row(2, b.methodId, b.args);
    var s := Start(2, []);
    var s1 := Step(s, a);
    var s2 := Step(s1, b);
    assert s2.drawn == map[1 := r1, 2 := r2];
    var s3 := Step(s2, Send(2));
    var s4 := Step(s3, Send(1));
    assert s4.queue == [r2, r1] && s4.phase == Waiting && s4.buf == [] && s4.log == [] && s4.batch == 2;
    hide Step, Enabled, Allowed, After, InLsnOrder;
    FlushBoth(s4, r1, r2);
    Unfold(s3, Send(1), [Receive, Receive, WriteOk]);
    Unfold(s2, Send(2), [Send(1), Receive, Receive, WriteOk]);
    Unfold(s1, b, [Send(2), Send(1), Receive, Receive, WriteOk]);
    Unfold(s, a, [b, Send(2), Send(1), Receive, Receive, WriteOk]);
  }

  lemma FlushBoth(s: State, r1: Row, r2: Row)
    requires s.queue == [r2, r1] && s.phase == Waiting && s.buf == [] && s.log == [] && s.batch == 2
    requires r1.lsn < r2.lsn
    ensures Allowed(s, [Receive, Receive, WriteOk])
    ensures !InLsnOrder(After(s, [Receive, Receive, WriteOk]).log)
  {
    var s1 := Step(s, Receive);
    var s2 := Step(s1, Receive);
    assert s2.buf == [r2, r1] && s2.phase == Flushing(false);
    var s3 := Step(s2, WriteOk);
    assert s3.log == [r2, r1];
    hide Step, Enabled;
    Unfold(s2, WriteOk, []);
    Unfold(s1, Receive, [WriteOk]);
    Unfold(s, Receive, [Receive, WriteOk]);
  }

  // A writer that stops between its draw and its send leaves a gap: the log starts with LSN 2, in LSN order, and after
  // a crash the generator goes on above it.
  lemma DrawnButNeverSent(a: Event, b: Event)
    requires a.Draw? && b.Draw?
    ensures var s, events := Start(1, []), [a, b, Send(2), Receive, WriteOk];
            && Allowed(s, events) && SendsInOrder(s, events)
            && After(s, events).log == [Row(2, b.methodId, b.args)]
            && Start(1, After(s, events).log).next == 2
  {
    var r1, r2 := Row(1, a.methodId, a.args), Row(2, b.methodId, b.args);
    var s := Start(1, []);
    var s1 := Step(s, a);
    var s2 := Step(s1, b);
    assert s2.drawn == map[1 := r1, 2 := r2];
    assert MaxLsn([r2]) == 2 by { assert [r2][..0] == []; }
    hide Step, Enabled, MaxLsn, Allowed, After, SendsInOrder;
    SentAndWritten(s2, r2);
    UnfoldOrdered(s1, b, [Send(2), Receive, WriteOk]);
    UnfoldOrdered(s, a, [b, Send(2), Receive, WriteOk]);
  }

  lemma SentAndWritten(s: State, r: Row)
    requires s.batch == 1 && r.lsn in s.drawn && s.drawn[r.lsn] == r && s.phase == Waiting
    requires s.sent == [] && s.queue == [] && s.buf == [] && s.log == []
    ensures var events := [Send(r.lsn), Receive, WriteOk];
            Allowed(s, events) && SendsInOrder(s, events) && After(s, events).log == [r]
  {
    var s1 := Step(s, Send(r.lsn));
    var s2 := Step(s1, Receive);
    assert s2.buf == [r] && s2.phase == Flushing(false);
    var s3 := Step(s2, WriteOk);
    assert s3.log == [r];
    assert Allowed(s3, []) && SendsInOrder(s3, []) && After(s3, []) == s3;
    hide Step, Enabled, Allowed, After, SendsInOrder;
    UnfoldOrdered(s2, WriteOk, []);
    UnfoldOrdered(s1, Receive, [WriteOk]);
    UnfoldOrdered(s, Send(r.lsn), [Receive, WriteOk]);
  }

  lemma UnfoldOrdered(s: State, e: Event, rest: seq<Event>)
    requires Enabled(s, e) && Allowed(Step(s, e), rest) && SendsInOrder(Step(s, e), rest)
    requires e.Send? ==> forall i :: 0 <= i < |s.sent| ==> s.sent[i].lsn < e.lsn
    ensures Allowed(s, [e] + rest) && After(s, [e] + rest) == After(Step(s, e), rest) && SendsInOrder(s, [e] + rest)
  {
    hide Step, Enabled;
    assert ([e] + rest)[1..] == rest;
  }

  lemma Unfold(s: State, e: Event, rest: seq<Event>)
    requires Enabled(s, e) && Allowed(Step(s, e), rest)
    ensures Allowed(s, [e] + rest) && After(s, [e] + rest) == After(Step(s, e), rest)
  {
    hide Step, Enabled;
    assert ([e] + rest)[1..] == rest;
  }
}
