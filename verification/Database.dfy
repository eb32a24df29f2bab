// internal/database/database.go over the WAL and the store: commands of one client after the other on a master, and the
// restart that rebuilds everything from the segment files.
module Database {
  import opened ByteCodec
  import opened WalRecord
  import opened LogStream
  import opened Directory
  import opened Segments
  import opened LogReader
  import opened Replay
  import opened Operations
  import InMemory
  import SegmentManager
  import Wal

  // Names left over once everything on its way has been written, whatever the splits.
  function Spare(w: W.State, names: seq<Name>): (n: int)
  {
    |names| - |w.queue| - |w.buf|
  }

  // The worker runs on its own for a while.
  method Follow(w: Wal.WAL, schedule: seq<W.Event>, names: seq<Name>)
    returns (ghost taken: seq<W.Event>, rest: seq<Name>)
    requires w.Valid() && Spare(w.View(), names) >= 0 && FreshNames(w.writer.segs, names) && W.Schedule(schedule)
    modifies w, w.writer, w.writer.seg
    ensures w.Valid() && |w.writer.segs| > 0 && FreshNames(w.writer.segs, rest)
    ensures old(w.writer.Tidy()) ==> w.writer.Tidy()
    ensures Spare(w.View(), rest) >= Spare(old(w.View()), names)
    ensures Legal(old(w.View()), taken) && w.View() == W.After(old(w.View()), taken)
    ensures W.Schedule(taken) && (NoCancel(schedule) ==> NoCancel(taken)) && taken == D.Runs(old(w.View()), schedule)
  {
    hide Wal.WAL.Valid, SegmentManager.Manager.Tidy, FreshNames, W.Step, W.Enabled, D.Obeys, D.Taken, D.Runs,
         W.After, W.Allowed, D.WrittenBy, W.Schedule, NoCancel;
    taken, rest := [], names;
    ghost var start := w.View();
    assert schedule[0..] == schedule;
    NothingTaken(start);
    Wal.SegsOfWal(w);
    for i := 0 to |schedule|
      invariant w.Valid() && |w.writer.segs| > 0 && FreshNames(w.writer.segs, rest)
      invariant old(w.writer.Tidy()) ==> w.writer.Tidy()
      invariant Spare(w.View(), rest) >= Spare(start, names)
      invariant Legal(start, taken) && w.View() == W.After(start, taken)
      invariant W.Schedule(taken) && (NoCancel(schedule) ==> NoCancel(taken))
      invariant taken + D.Runs(w.View(), schedule[i..]) == D.Runs(start, schedule)
    {
      var one;
      OneMoreTaken(start, taken, schedule, i);
      one, rest := w.Perform(schedule[i], rest);
      taken := taken + one;
    }
    D.NothingRuns(w.View());
    assert schedule[|schedule|..] == [];
  }

  lemma NothingTaken(w: W.State)
    ensures Legal(w, []) && W.After(w, []) == w && W.Schedule([]) && NoCancel([])
  {
  }

  lemma OneMoreTaken(start: W.State, taken: seq<W.Event>, schedule: seq<W.Event>, i: nat)
    requires i < |schedule| && W.Schedule(schedule) && Legal(start, taken) && W.Schedule(taken)
    requires NoCancel(schedule) ==> NoCancel(taken)
    requires taken + D.Runs(W.After(start, taken), schedule[i..]) == D.Runs(start, schedule)
    ensures W.ByWorker(schedule[i])
    ensures var w := W.After(start, taken);
            var one := D.Taken(w, schedule[i]);
            var more := taken + one;
            && Legal(start, more) && W.After(start, more) == (if one == [] then w else W.Step(w, one[0]))
            && W.Schedule(more) && (NoCancel(schedule) ==> NoCancel(more))
            && more + D.Runs(W.After(start, more), schedule[i + 1..]) == D.Runs(start, schedule)
  {
    hide W.Step, W.Enabled, W.Allowed, W.After, D.WrittenBy, D.Taken, D.Runs, D.Obeys;
    var w := W.After(start, taken);
    var one := D.Taken(w, schedule[i]);
    assert W.ByWorker(schedule[i]);
    TakenByWorker(w, schedule[i]);
    Wal.RunsNext(w, schedule, i);
    if one == [] {
      assert taken + one == taken;
    } else {
      assert one == [one[0]] && one[0] in one;
      D.OneEvent(D.SegmentFiles, w, one[0]);
      D.WrittenCompose(D.SegmentFiles, start, taken, one);
    }
    var rest := D.Runs(if one == [] then w else W.Step(w, one[0]), schedule[i + 1..]);
    assert taken + (one + rest) == taken + one + rest;
  }

  lemma TakenByWorker(w: W.State, e: W.Event)
    requires W.ByWorker(e)
    ensures forall one :: one in D.Taken(w, e) ==> W.ByWorker(one) && (one.Cancel? ==> e.Cancel?)
  {
    hide W.Enabled;
  }

  // A step of the client itself.
  method OwnStep(w: Wal.WAL, e: W.Event, names: seq<Name>) returns (rest: seq<Name>)
    requires w.Valid() && Spare(w.View(), names) >= 0 && FreshNames(w.writer.segs, names)
    requires W.Enabled(w.View(), e) && !W.ByWorker(e)
    modifies w, w.writer, w.writer.seg
    ensures w.Valid() && |w.writer.segs| > 0 && FreshNames(w.writer.segs, rest)
    ensures old(w.writer.Tidy()) ==> w.writer.Tidy()
    ensures Spare(w.View(), rest) >= Spare(old(w.View()), names) - (if e.Send? then 1 else 0)
    ensures w.View() == W.Step(old(w.View()), e)
  {
    hide Wal.WAL.Valid, SegmentManager.Manager.Tidy, FreshNames, W.Step, W.Enabled, D.Obeys;
    var taken;
    TakenByClient(w.View(), e);
    taken, rest := w.Perform(e, names);
  }

  lemma TakenByClient(w: W.State, e: W.Event)
    requires !W.ByWorker(e) && W.Enabled(w, e)
    ensures D.Taken(w, e) == [e] && D.Obeys(D.SegmentFiles, w, e)
  {
    hide W.Enabled;
  }

  // Up to the point where the row is ready to be sent.
  method BeginWrite(w: Wal.WAL, q: Query.Query, sending: seq<W.Event>, names: seq<Name>)
    returns (lsn: U64, ghost taken: seq<W.Event>, rest: seq<Name>)
    requires w.Valid() && Spare(w.View(), names) >= 0 && FreshNames(w.writer.segs, names) && W.Schedule(sending)
    requires w.lsn < 0xFFFF_FFFF_FFFF_FFFF
    modifies w, w.writer, w.writer.seg
    ensures w.Valid() && |w.writer.segs| > 0 && FreshNames(w.writer.segs, rest)
    ensures old(w.writer.Tidy()) ==> w.writer.Tidy()
    ensures Spare(w.View(), rest) >= Spare(old(w.View()), names)
    ensures var events := [W.Draw(q.methodId, q.args)] + taken;
            && Legal(old(w.View()), events) && w.View() == W.After(old(w.View()), events)
            && events == D.Runs(old(w.View()), [W.Draw(q.methodId, q.args)] + sending)
    ensures W.Schedule(taken) && (NoCancel(sending) ==> NoCancel(taken))
    ensures lsn == old(w.lsn) + 1
  {
    hide Wal.WAL.Valid, SegmentManager.Manager.Tidy, FreshNames, W.Step, W.Enabled, W.After, Legal, Spare;
    ghost var start := w.View();
    var draw := W.Draw(q.methodId, q.args);
    DrawsNext(start, draw);
    rest := OwnStep(w, draw, names);
    lsn := w.lsn;
    taken, rest := Follow(w, sending, rest);
    LegalCons(start, draw, taken);
    RunsFirst(start, draw, sending);
  }

  lemma RunsFirst(w: W.State, e: W.Event, schedule: seq<W.Event>)
    requires W.Enabled(w, e) && !W.ByWorker(e)
    ensures D.Runs(w, [e] + schedule) == [e] + D.Runs(W.Step(w, e), schedule)
  {
    TakenByClient(w, e);
    hide W.Step, W.Enabled, D.Taken;
    assert ([e] + schedule)[1..] == schedule;
  }

  lemma DrawsNext(w: W.State, draw: W.Event)
    requires draw.Draw? && w.next < 0xFFFF_FFFF_FFFF_FFFF
    ensures W.Enabled(w, draw) && W.Step(w, draw).next == w.next + 1 && D.Obeys(D.SegmentFiles, w, draw)
  {
  }

  // Send the row, register its future, wait.
  method SendAndWait(w: Wal.WAL, lsn: U64, registering: seq<W.Event>, waiting: seq<W.Event>, names: seq<Name>)
    returns (ghost a: seq<W.Event>, ghost b: seq<W.Event>, rest: seq<Name>)
    requires w.Valid() && Spare(w.View(), names) >= 1 && FreshNames(w.writer.segs, names)
    requires W.Enabled(w.View(), W.Send(lsn)) && W.Schedule(registering) && W.Schedule(waiting)
    modifies w, w.writer, w.writer.seg
    ensures w.Valid() && |w.writer.segs| > 0 && FreshNames(w.writer.segs, rest)
    ensures old(w.writer.Tidy()) ==> w.writer.Tidy()
    ensures Spare(w.View(), rest) >= Spare(old(w.View()), names) - 1
    ensures var events := [W.Send(lsn)] + (a + [W.Register(lsn)] + b);
            && Legal(old(w.View()), events) && w.View() == W.After(old(w.View()), events)
            && events == D.Runs(old(w.View()), [W.Send(lsn)] + (registering + [W.Register(lsn)] + waiting))
    ensures W.Schedule(a) && (NoCancel(registering) ==> NoCancel(a)) && W.Schedule(b) &&
            (NoCancel(waiting) ==> NoCancel(b))
  {
    hide Wal.WAL.Valid, SegmentManager.Manager.Tidy, FreshNames, W.Step, W.After, Legal, Spare, W.Allowed, D.WrittenBy;
    ghost var start := w.View();
    rest := OwnStep(w, W.Send(lsn), names);
    ghost var sent := w.View();
    SentIsUnregistered(start, lsn);
    a, rest := Follow(w, registering, rest);
    ghost var ready := w.View();
    KeepsUnregistered(sent, a);
    rest := OwnStep(w, W.Register(lsn), rest);
    b, rest := Follow(w, waiting, rest);
    LegalAround(sent, a, W.Register(lsn), b);
    LegalCons(start, W.Send(lsn), a + [W.Register(lsn)] + b);
    RunsAround(sent, registering, W.Register(lsn), waiting);
    RunsFirst(start, W.Send(lsn), registering + [W.Register(lsn)] + waiting);
  }

  lemma RunsAround(v: W.State, a: seq<W.Event>, e: W.Event, b: seq<W.Event>)
    requires !W.ByWorker(e) && Legal(v, D.Runs(v, a)) && W.Enabled(W.After(v, D.Runs(v, a)), e)
    ensures D.Runs(v, a + [e] + b) == D.Runs(v, a) + [e] + D.Runs(W.Step(W.After(v, D.Runs(v, a)), e), b)
  {
    hide W.Step, W.Enabled, W.Allowed, W.After, D.Runs, D.WrittenBy;
    D.RunsConcat(v, a, [e] + b);
    assert a + [e] + b == a + ([e] + b);
    RunsFirst(W.After(v, D.Runs(v, a)), e, b);
  }

  lemma SentIsUnregistered(w: W.State, lsn: U64)
    requires W.Enabled(w, W.Send(lsn))
    ensures lsn in W.Step(w, W.Send(lsn)).unregistered
  {
  }

  lemma {:induction false} KeepsUnregistered(w: W.State, events: seq<W.Event>)
    requires Legal(w, events) && W.Schedule(events)
    ensures W.After(w, events).unregistered == w.unregistered
    decreases |events|
  {
    if events != [] {
      assert W.ByWorker(events[0]);
      assert W.Step(w, events[0]).unregistered == w.unregistered;
      hide W.Step, W.Enabled, D.Obeys;
      KeepsUnregistered(W.Step(w, events[0]), events[1..]);
    }
  }

  lemma LegalAround(v: W.State, a: seq<W.Event>, e: W.Event, b: seq<W.Event>)
    requires Legal(v, a) && W.Enabled(W.After(v, a), e) && D.Obeys(D.SegmentFiles, W.After(v, a), e)
    requires Legal(W.Step(W.After(v, a), e), b)
    ensures Legal(v, a + [e] + b) && W.After(v, a + [e] + b) == W.After(W.Step(W.After(v, a), e), b)
  {
    hide W.Step, W.Enabled, D.Obeys, W.Allowed, W.After, D.WrittenBy;
    LegalCons(W.After(v, a), e, b);
    D.WrittenCompose(D.SegmentFiles, v, a, [e] + b);
    assert a + ([e] + b) == a + [e] + b;
  }

  /* ---------- The node ---------- */

  class Database {
    const st: InMemory.Engine
    const wal: Wal.WAL
    ghost var applied: seq<Row>

    ghost function View(): (s: C.State)
      requires st.Valid()
      reads this, st, wal
    {
      C.State(wal.View(), st.Contents(), applied)
    }

    ghost predicate Consistent()
      reads this, st, wal, wal.writer, wal.writer.seg
    {
      st.Valid() && wal.Valid() && C.Inv(View())
    }

    constructor (st: InMemory.Engine, wal: Wal.WAL, ghost applied: seq<Row>)
      ensures this.st == st && this.wal == wal && this.applied == applied
    {
      this.st, this.wal, this.applied := st, wal, applied;
    }

    // Log first, wait, then apply: only a command told OK in time is applied. `ran` is the operation as it happened.
    method Execute(q: Query.Query, sending: seq<W.Event>, registering: seq<W.Event>, waiting: seq<W.Event>,
                   names: seq<Name>)
      returns (answer: Answer, ghost ran: Op, rest: seq<Name>)
      requires Consistent() && IsCommand(q) && wal.lsn < 0xFFFF_FFFF_FFFF_FFFF
      requires W.Schedule(sending) && W.Schedule(registering) && W.Schedule(waiting)
      requires Spare(wal.View(), names) >= 1 && FreshNames(wal.writer.segs, names)
      modifies this, st, wal, wal.writer, wal.writer.seg
      ensures Consistent() && ran.Command? && ran.q == q && OpAllowed(old(View()), ran)
      ensures View() == OpStep(old(View()), ran) && answer == OpAnswer(old(View()), ran)
      ensures OpAsAsked(old(View()), Command(q, sending, registering, waiting), ran)
      ensures q.methodId == 1 ==>
                && st.Contents() == old(st.Contents())
                && answer == Value(if q.args[0] in old(st.Contents()) then old(st.Contents())[q.args[0]] else [])
      ensures q.methodId != 1 ==>
                if answer.Value? then
                  && answer == Value([79, 75])
                  && (q.methodId == 0 ==> st.Contents() == old(st.Contents())[q.args[0] := q.args[1]])
                  && (q.methodId == 2 ==> st.Contents() == old(st.Contents()) - {q.args[0]})
                else st.Contents() == old(st.Contents())
      ensures NoCancel(sending) && NoCancel(registering) && NoCancel(waiting) ==> Undisturbed(ran)
      ensures |wal.writer.segs| > 0 && FreshNames(wal.writer.segs, rest)
      ensures old(wal.writer.Tidy()) ==> wal.writer.Tidy()
      ensures Spare(wal.View(), rest) >= Spare(old(wal.View()), names) - 1
    {
      hide Wal.WAL.Valid, SegmentManager.Manager.Tidy, FreshNames, C.Inv, W.Step, W.After, W.Allowed, D.WrittenBy,
           W.Enabled, Spare, OpStep, OpAnswer, OpAllowed, Undisturbed, InMemory.Engine.Valid;
      if q.methodId == GET {
        Wal.SegsOfWal(wal);
        ReadOp(View(), q);
        var value := st.Get(q.args[0]);
        ran := Command(q, [], [], []);
        return Value(if value.Some? then value.value else []), ran, names;
      }
      ghost var before := View();
      answer, ran, rest := ExecuteWrite(q, sending, registering, waiting, names);
      ClientSees(before, ran);
    }

    method ExecuteWrite(q: Query.Query, sending: seq<W.Event>, registering: seq<W.Event>, waiting: seq<W.Event>,
                        names: seq<Name>)
      returns (answer: Answer, ghost ran: Op, rest: seq<Name>)
      requires Consistent() && IsCommand(q) && q.methodId != GET && wal.lsn < 0xFFFF_FFFF_FFFF_FFFF
      requires W.Schedule(sending) && W.Schedule(registering) && W.Schedule(waiting)
      requires Spare(wal.View(), names) >= 1 && FreshNames(wal.writer.segs, names)
      modifies this, st, wal, wal.writer, wal.writer.seg
      ensures Consistent() && ran.Command? && ran.q == q && OpAllowed(old(View()), ran)
      ensures View() == OpStep(old(View()), ran) && answer == OpAnswer(old(View()), ran)
      ensures OpAsAsked(old(View()), Command(q, sending, registering, waiting), ran)
      ensures NoCancel(sending) && NoCancel(registering) && NoCancel(waiting) ==> Undisturbed(ran)
      ensures |wal.writer.segs| > 0 && FreshNames(wal.writer.segs, rest)
      ensures old(wal.writer.Tidy()) ==> wal.writer.Tidy()
      ensures Spare(wal.View(), rest) >= Spare(old(wal.View()), names) - 1
    {
      hide Wal.WAL.Valid, SegmentManager.Manager.Tidy, FreshNames, C.Inv, W.Step, W.After, W.Allowed, D.WrittenBy,
           W.Enabled, Spare, OpStep, OpAnswer, OpAllowed, WriteAllowed, Waited, WriteAnswer, Apply,
           InMemory.Engine.Valid, Undisturbed, W.Schedule, NoCancel, IsWrite;
      ghost var before := View();
      var ok, lsn;
      answer, ran, ok, lsn, rest := WriteAndWait(q, sending, registering, waiting, names);
      WriteOp(before, ran);
      OpStepInv(before, ran);
      if ok {
        ApplyRow(Row(lsn, q.methodId, q.args));
      }
      assert View() == OpStep(before, ran);
    }

    method ApplyRow(row: Row)
      requires st.Valid() && IsWrite(row)
      modifies this, st
      ensures st.Valid() && st.Contents() == Apply(old(st.Contents()), row) && applied == old(applied) + [row]
    {
      var outcome := st.Exec(row);
      applied := applied + [row];
    }

    // `setInWal`: the answer, if it comes, is taken; `ok` says whether to go on.
    method WriteAndWait(q: Query.Query, sending: seq<W.Event>, registering: seq<W.Event>, waiting: seq<W.Event>,
                        names: seq<Name>)
      returns (answer: Answer, ghost ran: Op, ok: bool, lsn: U64, rest: seq<Name>)
      requires wal.Valid() && wal.lsn < 0xFFFF_FFFF_FFFF_FFFF && IsWrite(Row(0, q.methodId, q.args))
      requires W.Schedule(sending) && W.Schedule(registering) && W.Schedule(waiting)
      requires Spare(wal.View(), names) >= 1 && FreshNames(wal.writer.segs, names)
      modifies wal, wal.writer, wal.writer.seg
      ensures wal.Valid() && ran.Command? && ran.q == q && WriteAllowed(old(wal.View()), ran)
      ensures AsAsked(old(wal.View()), Command(q, sending, registering, waiting), ran)
      ensures answer == WriteAnswer(old(wal.View()), ran) && (ok <==> answer.Value?) && lsn == old(wal.lsn) + 1
      ensures AfterAnswer(old(wal.View()), ran, answer, wal.View())
      ensures NoCancel(sending) && NoCancel(registering) && NoCancel(waiting) ==> Undisturbed(ran)
      ensures |wal.writer.segs| > 0 && FreshNames(wal.writer.segs, rest)
      ensures old(wal.writer.Tidy()) ==> wal.writer.Tidy()
      ensures Spare(wal.View(), rest) >= Spare(old(wal.View()), names) - 1
    {
      hide Wal.WAL.Valid, SegmentManager.Manager.Tidy, FreshNames, W.Step, W.After, W.Allowed, D.WrittenBy,
           W.Enabled, Legal, Spare, WriteAllowed, Waited, WriteAnswer, IsWrite;
      ghost var start := wal.View();
      ghost var a, b, c;
      lsn, a, rest := BeginWrite(wal, q, sending, names);
      ghost var drawn := wal.View();
      if !W.Enabled(wal.View(), W.Send(lsn)) {
        ran := Command(q, a, [], []);
        NotSent(start, ran);
        return Blocked, ran, false, lsn, rest;
      }
      b, c, rest := SendAndWait(wal, lsn, registering, waiting, rest);
      ran := Command(q, a, b, c);
      WasSent(start, drawn, ran);
      if !W.Enabled(wal.View(), W.Take(lsn)) {
        return TimedOut, ran, false, lsn, rest;
      }
      CanTake(wal.View(), lsn);
      ok := wal.replies[lsn].buffered[0];
      rest := OwnStep(wal, W.Take(lsn), rest);
      return if ok then Value(OK_ANSWER) else Refused, ran, ok, lsn, rest;
    }
  }

  lemma CanTake(w: W.State, lsn: U64)
    requires W.Enabled(w, W.Take(lsn))
    ensures lsn in w.replies && |w.replies[lsn].buffered| > 0
  {
  }

  ghost predicate AfterAnswer(w: W.State, op: Op, answer: Answer, t: W.State)
    requires WriteAllowed(w, op)
  {
    var u := Waited(w, op);
    if answer.Value? || answer.Refused? then W.Enabled(u, W.Take(w.next + 1)) &&
       t == W.Step(u, W.Take(w.next + 1)) else t == u
  }

  lemma ReadOp(s: C.State, q: Query.Query)
    requires IsCommand(q) && q.methodId == GET
    ensures var op := Command(q, [], [], []);
            && OpAllowed(s, op) && OpStep(s, op) == s && Undisturbed(op)
            && (forall asked: Op :: asked.Command? && asked.q == q ==> OpAsAsked(s, asked, op))
            && OpAnswer(s, op) == Value(match Lookup(s.store, q.args[0]) case Some(v) => v case None => [])
  {
  }

  /* ---------- Starting over the files ---------- */

  // One file's rows executed in order until one fails, keeping the largest LSN seen.
  method ReplayRows(st: InMemory.Engine, rows: seq<Row>, start: U64) returns (outcome: Outcome, done: nat, last: U64)
    requires st.Valid()
    modifies st
    ensures st.Valid() && done <= |rows| && Executable(rows[..done])
    ensures st.Contents() == Run(old(st.Contents()), Writes(rows[..done]))
    ensures outcome == Applied <==> done == |rows|
    ensures done < |rows| ==> outcome == ExecVerdict(rows[done])
    ensures last == if start > W.MaxLsn(rows) then start else W.MaxLsn(rows)
  {
    hide Run, Writes, Executable, ExecVerdict, IsWrite, Apply, W.MaxLsn;
    last := HighestLsn(rows, start);
    done := 0;
    NothingReplayed(st.Contents(), rows);
    while done < |rows|
      invariant st.Valid() && done <= |rows| && Executable(rows[..done])
      invariant st.Contents() == Run(old(st.Contents()), Writes(rows[..done]))
    {
      outcome := ExecRow(st, rows[done]);
      if outcome != Applied {
        return;
      }
      OneReplayed(old(st.Contents()), rows, done);
      done := done + 1;
    }
    outcome := Applied;
  }

  lemma NothingReplayed(s: Store, rows: seq<Row>)
    ensures Executable(rows[..0]) && Run(s, Writes(rows[..0])) == s
  {
  }

  lemma OneReplayed(s: Store, rows: seq<Row>, k: nat)
    requires k < |rows| && Executable(rows[..k]) && ExecVerdict(rows[k]) == Applied
    ensures Executable(rows[..k + 1])
    ensures Run(s, Writes(rows[..k + 1])) ==
            if IsWrite(rows[k]) then Apply(Run(s, Writes(rows[..k])), rows[k]) else Run(s, Writes(rows[..k]))
  {
    var front, more := rows[..k], rows[..k + 1];
    assert more == front + [rows[k]] && more[..k] == front;
    OneWriteMore(front, rows[k]);
    hide Writes, Executable, Apply;
    var w := Writes(front);
    if IsWrite(rows[k]) {
      assert (w + [rows[k]])[..|w|] == w;
    }
  }

  lemma OneWriteMore(front: seq<Row>, row: Row)
    requires Executable(front) && ExecVerdict(row) == Applied
    ensures Executable(front + [row])
    ensures Writes(front + [row]) == if IsWrite(row) then Writes(front) + [row] else Writes(front)
  {
    assert (front + [row])[..|front|] == front;
  }

  method HighestLsn(rows: seq<Row>, start: U64) returns (last: U64)
    ensures last == if start > W.MaxLsn(rows) then start else W.MaxLsn(rows)
  {
    last := start;
    for k := 0 to |rows|
      invariant last == if start > W.MaxLsn(rows[..k]) then start else W.MaxLsn(rows[..k])
    {
      if rows[k].lsn > last {
        last := rows[k].lsn;
      }
      assert rows[..k + 1][..k] == rows[..k];
    }
    assert rows[..|rows|] == rows;
  }

  // `exec` with its answer dropped: reading a key that is not there is no error.
  method ExecRow(st: InMemory.Engine, row: Row) returns (outcome: Outcome)
    requires st.Valid()
    modifies st
    ensures st.Valid() && outcome == ExecVerdict(row)
    ensures st.Contents() == if IsWrite(row) then Apply(old(st.Contents()), row) else old(st.Contents())
    ensures outcome != Applied ==> st.Contents() == old(st.Contents())
  {
    if row.methodId == GET {
      if |row.args| < 1 {
        return OutOfRange;
      }
      var value := st.Get(row.args[0]);
      return Applied;
    }
    outcome := st.Exec(row);
  }

  lemma LogNext(segs: seq<Seg>, i: nat)
    requires i < |segs|
    ensures Log(segs[..i + 1]) == Log(segs[..i]) + segs[i].rows
  {
    assert segs[..i + 1][..i] == segs[..i];
  }

  lemma LogPrefix(segs: seq<Seg>, i: nat)
    requires i <= |segs|
    ensures Log(segs[..i]) <= Log(segs)
  {
    hide Log;
    assert segs == segs[..i] + segs[i..];
    LogConcat(segs[..i], segs[i..]);
  }

  // The first row that cannot be executed, and why.
  predicate FailsAt(log: seq<Row>, p: nat, why: Outcome)
  {
    p < |log| && Executable(log[..p]) && why == ExecVerdict(log[p]) && why != Applied
  }

  lemma FailsAfter(log: seq<Row>, front: seq<Row>, rows: seq<Row>, k: nat, why: Outcome)
    requires front + rows <= log && k < |rows| && Executable(front) && Executable(rows[..k])
    requires why == ExecVerdict(rows[k]) && why != Applied
    ensures FailsAt(log, |front| + k, why) && !Executable(log)
  {
    ExecutableSplit(front, rows[..k]);
    assert log[..|front| + k] == front + rows[..k];
    assert log[|front| + k] == (front + rows)[|front| + k] == rows[k];
  }

  // The outer loop of the restore, file by file.
  method ReplayFiles(st: InMemory.Engine, stream: seq<seq<Row>>, ghost segs: seq<Seg>)
    returns (outcome: Outcome, last: U64)
    requires st.Valid() && st.Contents() == map[]
    requires |stream| == |segs| && forall i :: 0 <= i < |segs| ==> stream[i] == segs[i].rows
    modifies st
    ensures st.Valid() && (outcome == Applied <==> Executable(Log(segs)))
    ensures outcome == Applied ==> st.Contents() == Run(map[], Writes(Log(segs))) && last == W.MaxLsn(Log(segs))
    ensures outcome != Applied ==> exists p :: FailsAt(Log(segs), p, outcome)
  {
    last := 0;
    assert segs[..0] == [];
    for i := 0 to |stream|
      invariant st.Valid() && Executable(Log(segs[..i]))
      invariant st.Contents() == Run(map[], Writes(Log(segs[..i])))
      invariant last == W.MaxLsn(Log(segs[..i]))
    {
      hide Run, Log, Executable, W.MaxLsn, Writes, ExecVerdict, FailsAt;
      LogNext(segs, i);
      LogPrefix(segs, i + 1);
      var done;
      outcome, done, last := ReplayRows(st, stream[i], last);
      if outcome != Applied {
        FailsAfter(Log(segs), Log(segs[..i]), stream[i], done, outcome);
        return;
      }
      assert stream[i][..done] == stream[i];
      WritesConcat(Log(segs[..i]), stream[i]);
      RunConcat(map[], Writes(Log(segs[..i])), Writes(stream[i]));
      W.MaxLsnConcat(Log(segs[..i]), stream[i]);
    }
    outcome := Applied;
    assert segs[..|segs|] == segs;
  }

  // The rows of all files, one after the other.
  method Flat(stream: seq<seq<Row>>, ghost segs: seq<Seg>) returns (rows: seq<Row>)
    requires |stream| == |segs| && forall i :: 0 <= i < |segs| ==> stream[i] == segs[i].rows
    ensures rows == Log(segs)
  {
    rows := [];
    assert segs[..0] == [];
    for i := 0 to |stream|
      invariant rows == Log(segs[..i])
    {
      LogNext(segs, i);
      rows := rows + stream[i];
    }
    assert segs[..|segs|] == segs;
  }

  datatype Started = Up(db: Database) | Down(why: Outcome)

  // A process starting over any files: it comes up exactly when every row found there can be executed, with their
  // effect, the largest LSN and the rebuilt index.
  method Restore(st: InMemory.Engine, sm: SegmentManager.Manager, batch: nat) returns (r: Started)
    requires st.Valid() && st.Contents() == map[] && sm.index == map[]
    modifies st, sm`index
    ensures var log := Log(SegsOf(sm.seg.files));
            && sm.index == Rebuilt(SegsOf(sm.seg.files))
            && (r.Up? <==> Executable(log))
            && (r.Down? ==> exists p :: FailsAt(log, p, r.why))
            && (r.Up? ==>
                  && fresh(r.db) && fresh(r.db.wal) && r.db.st == st && r.db.wal.writer == sm
                  && st.Valid() && st.Contents() == Run(map[], Writes(log)) && r.db.applied == Writes(log)
                  && r.db.wal.View() == W.Start(if batch == 0 then 100 else batch, log)
                  && (sm.Valid() && Log(sm.segs) == log && W.Startable(log) ==> r.db.wal.Valid()))
  {
    hide Parse, Rebuilt, Log, Executable, Writes, W.MaxLsn, Run, FailsAt, W.Startable, SegmentManager.Manager.Valid,
         Wal.WAL.Valid;
    var stream, index := RestoreSystem(sm.seg.files);
    sm.AddBatchIndex(index);
    assert map[] + index == index;
    ghost var log := Log(SegsOf(sm.seg.files));
    var outcome, last := ReplayFiles(st, stream, SegsOf(sm.seg.files));
    if outcome != Applied {
      return Down(outcome);
    }
    var rows := Flat(stream, SegsOf(sm.seg.files));
    var wal := new Wal.WAL(batch, sm, rows);
    var db := new Database(st, wal, Writes(log));
    return Up(db);
  }

  lemma RestoredLog(segs: seq<Seg>)
    requires WellFormed(segs) && AllWrites(Log(segs))
    ensures SegsOf(Render(segs)) == segs && Executable(Log(segs)) && Writes(Log(segs)) == Log(segs)
    ensures IndexAgrees(segs, Rebuilt(segs), [])
  {
    hide Parse, Rebuilt, Log, WellFormed, IndexAgrees;
    WellFormedIsFormed(segs);
    SegsOfRendered(segs);
    RebuiltAgrees(segs);
  }

  // A crash: only the files survive, and the new process is where they say. If every row fits, that is where the log of
  // the old one was.
  method CrashAndRestore(db: Database, hash: Bytes -> nat, shards: int, name: Name) returns (r: Started)
    requires db.Consistent()
    ensures r.Up? <==> Executable(Log(SegsOf(db.wal.writer.seg.files)))
    ensures r.Down? ==> exists p :: FailsAt(Log(SegsOf(db.wal.writer.seg.files)), p, r.why)
    ensures r.Up? ==>
              && fresh(r.db) && fresh(r.db.st) && fresh(r.db.wal) && fresh(r.db.wal.writer) &&
                 fresh(r.db.wal.writer.seg)
              && r.db.wal.writer.seg.files == db.wal.writer.seg.files
              && r.db.wal.writer.seg.maxSize == db.wal.writer.seg.maxSize
              && r.db.wal.View() == W.Start(db.wal.flushBatchSize, Log(SegsOf(db.wal.writer.seg.files)))
    ensures OpAllowed(db.View(), Crash) ==>
              && r.Up? && r.db.Consistent() && r.db.View() == OpStep(db.View(), Crash)
              && r.db.wal.writer.segs == db.wal.writer.segs && (db.wal.writer.Tidy() ==> r.db.wal.writer.Tidy())
    ensures OpAllowed(db.View(), Crash) && db.wal.writer.pending == [] ==> r.db.wal.writer.index == db.wal.writer.index
  {
    hide SegmentManager.Manager.Valid, Wal.WAL.Valid, C.Inv, OpStep, OpAllowed, Log, Rebuilt, Executable, IndexAgrees,
         SegsOf, InMemory.Engine.Valid, W.Start, W.Inv, Greedy, FailsAt;
    r := StartOver(db, hash, shards, name);
    if OpAllowed(db.View(), Crash) && db.wal.writer.pending == [] {
      Wal.SegsOfWal(db.wal);
      NumberedOnce(db.View());
      PublishedIndex(db.wal.writer);
    }
  }

  lemma NumberedOnce(s: C.State)
    requires C.Inv(s)
    ensures DistinctLsns(s.worker.log)
  {
    C.LogStartable(s.worker);
  }

  method StartOver(db: Database, hash: Bytes -> nat, shards: int, name: Name) returns (r: Started)
    requires db.Consistent()
    ensures r.Up? <==> Executable(Log(SegsOf(db.wal.writer.seg.files)))
    ensures r.Down? ==> exists p :: FailsAt(Log(SegsOf(db.wal.writer.seg.files)), p, r.why)
    ensures r.Up? ==>
              && fresh(r.db) && fresh(r.db.st) && fresh(r.db.wal) && fresh(r.db.wal.writer) &&
                 fresh(r.db.wal.writer.seg)
              && r.db.wal.writer.seg.files == db.wal.writer.seg.files
              && r.db.wal.writer.seg.maxSize == db.wal.writer.seg.maxSize
              && r.db.wal.View() == W.Start(db.wal.flushBatchSize, Log(SegsOf(db.wal.writer.seg.files)))
    ensures OpAllowed(db.View(), Crash) ==>
              && r.Up? && r.db.Consistent() && r.db.View() == OpStep(db.View(), Crash)
              && r.db.wal.writer.segs == db.wal.writer.segs && r.db.wal.writer.index == Rebuilt(db.wal.writer.segs)
  {
    hide SegmentManager.Manager.Valid, Wal.WAL.Valid, C.Inv, OpStep, OpAllowed, Log, Run, Rebuilt, Executable,
         Writes, Parse, Render, W.Startable, W.Start, FailsAt, IndexAgrees, Formed, SegsOf, W.Inv,
         InMemory.Engine.Valid, DistinctLsns, AllWrites, C.Enabled, SegmentManager.Manager.Tidy;
    ghost var segs, before := db.wal.writer.segs, db.View();
    var sm := Reopen(db.wal, name);
    var st := new InMemory.Engine(hash, shards);
    if OpAllowed(before, Crash) {
      CrashIsClean(before, segs);
      OpStepInv(before, Crash);
    }
    r := Restore(st, sm, db.wal.flushBatchSize);
    if OpAllowed(before, Crash) {
      RestoredManager(sm);
      UpAfterCrash(r.db, before, segs);
    }
  }

  lemma UpAfterCrash(db: Database, s: C.State, segs: seq<Seg>)
    requires AllWrites(Log(segs)) && db.st.Valid() && db.wal.Valid() && OpAllowed(s, Crash) && C.Inv(OpStep(s, Crash))
    requires db.wal.View() == W.Start(s.worker.batch, Log(segs)) && db.applied == Log(segs)
    requires db.st.Contents() == Run(map[], Log(segs))
    requires OpStep(s, Crash) == C.State(W.Start(s.worker.batch, Log(segs)), Run(map[], Log(segs)), Log(segs))
    ensures db.Consistent() && db.View() == OpStep(s, Crash)
  {
    hide OpStep, OpAllowed, C.Inv, Wal.WAL.Valid, InMemory.Engine.Valid, W.Start, Run, Log, AllWrites;
  }

  // The files as the old process left them, opened by the new one.
  method Reopen(wal: Wal.WAL, name: Name) returns (sm: SegmentManager.Manager)
    requires wal.Valid()
    ensures fresh(sm) && fresh(sm.seg) && sm.seg.Valid() && sm.index == map[] && sm.pending == []
    ensures sm.segs == wal.writer.segs && Formed(sm.segs) && sm.seg.maxSize == wal.writer.seg.maxSize
    ensures sm.seg.files == wal.writer.seg.files == Render(sm.segs) && Log(sm.segs) == wal.written &&
            wal.flushBatchSize > 0
  {
    hide IndexAgrees, Render, Log, W.Inv;
    FormNotEmpty(wal.writer.segs);
    var seg := new SegmentManager.FileSegment(wal.writer.seg.files, wal.writer.seg.maxSize, name);
    sm := new SegmentManager.Manager(seg, wal.writer.segs);
  }

  lemma CrashIsClean(s: C.State, segs: seq<Seg>)
    requires C.Inv(s) && OpAllowed(s, Crash) && Formed(segs) && Log(segs) == s.worker.log
    ensures SegsOf(Render(segs)) == segs && Executable(Log(segs)) && Writes(Log(segs)) == Log(segs)
    ensures W.Startable(Log(segs)) && DistinctLsns(Log(segs)) && IndexAgrees(segs, Rebuilt(segs), [])
    ensures AllWrites(Log(segs))
    ensures OpStep(s, Crash) == C.State(W.Start(s.worker.batch, Log(segs)), Run(map[], Log(segs)), Log(segs))
  {
    C.LogStartable(s.worker);
    hide Formed, Parse, Rebuilt, Log, IndexAgrees, W.Inv, Run, AllFit, AllWrites, W.MaxLsn;
    CanBeRead(segs);
    RestoredLog(segs);
  }

  lemma RestoredManager(sm: SegmentManager.Manager)
    requires sm.seg.Valid() && Formed(sm.segs) && sm.seg.files == Render(sm.segs) && sm.pending == []
    requires IndexAgrees(sm.segs, sm.index, [])
    ensures sm.Valid()
  {
  }

  lemma PublishedIndex(sm: SegmentManager.Manager)
    requires sm.Valid() && sm.pending == [] && DistinctLsns(Log(sm.segs))
    ensures sm.index == Rebuilt(sm.segs)
  {
    hide Formed, Render, Rebuilt, IndexAgrees, Log;
    AllPublished(sm.segs, sm.index);
  }

  lemma CanBeRead(segs: seq<Seg>)
    requires Formed(segs) && AllFit(Log(segs))
    ensures WellFormed(segs) && |segs| > 0
  {
    LogFits(segs);
  }

  /* ---------- Whole runs on the objects ---------- */

  // The same commands and crashes, with what becomes of the worker's schedules where each is run.
  predicate Performed(s: C.State, asked: seq<Op>, ran: seq<Op>)
    requires OpsAllowed(s, ran)
    decreases |ran|
  {
    && |asked| == |ran|
    && (ran != [] ==> SameOp(s, asked[0], ran[0]) && Performed(OpStep(s, ran[0]), asked[1..], ran[1..]))
  }

  predicate SameOp(s: C.State, asked: Op, ran: Op)
    requires OpAllowed(s, ran)
  {
    OpAsAsked(s, asked, ran) && (Undisturbed(asked) ==> Undisturbed(ran))
  }

  // Runs that can happen as asked do.
  lemma {:induction false} EveryRunHappens(s: C.State, asked: seq<Op>, ran: seq<Op>)
    requires OpsAllowed(s, asked) && OpsAllowed(s, ran) && Performed(s, asked, ran)
    ensures AfterOps(s, ran) == AfterOps(s, asked)
    decreases |ran|
  {
    hide OpStep, OpAllowed, OpAsAsked, Undisturbed;
    if ran != [] {
      HappensAsAsked(s, asked[0], ran[0]);
      EveryRunHappens(OpStep(s, ran[0]), asked[1..], ran[1..]);
    }
  }

  lemma {:induction false} PerformedMore(s: C.State, asked: seq<Op>, ran: seq<Op>, op: Op, one: Op)
    requires OpsAllowed(s, ran) && Performed(s, asked, ran)
    requires OpAllowed(AfterOps(s, ran), one) && SameOp(AfterOps(s, ran), op, one)
    ensures OpsAllowed(s, ran + [one]) && Performed(s, asked + [op], ran + [one])
    decreases |ran|
  {
    hide OpStep, OpAllowed, SameOp;
    OpsSnoc(s, ran, one);
    if ran == [] {
      assert ran + [one] == [one] && asked + [op] == [op] && [one][1..] == [] && [op][1..] == [];
      assert OpsAllowed(OpStep(s, one), []);
    } else {
      PerformedMore(OpStep(s, ran[0]), asked[1..], ran[1..], op, one);
      assert (ran + [one])[1..] == ran[1..] + [one] && (asked + [op])[1..] == asked[1..] + [op];
    }
  }

  lemma {:induction false} OpsUpTo(s: C.State, ops: seq<Op>, k: nat)
    requires OpsAllowed(s, ops) && k <= |ops|
    ensures OpsAllowed(s, ops[..k]) && (k < |ops| ==> OpAllowed(AfterOps(s, ops[..k]), ops[k]))
    decreases k
  {
    hide OpStep, OpAllowed;
    if k > 0 {
      OpsUpTo(OpStep(s, ops[0]), ops[1..], k - 1);
      assert ops[..k][1..] == ops[1..][..k - 1];
    }
  }

  // What can be asked for: parsed commands with any schedule of the worker.
  predicate CanAsk(op: Op)
  {
    op.Command? ==>
      IsCommand(op.q) && W.Schedule(op.sending) && W.Schedule(op.registering) && W.Schedule(op.waiting)
  }

  // Rows of at most 65535 arguments keep the files readable for the crashes.
  predicate SmallOp(op: Op)
  {
    op.Command? ==> |op.q.args| <= MAX_U16
  }

  // Everything sent or drawn fits in number of arguments, and what is logged fits altogether.
  predicate Readable(s: C.State)
  {
    D.SmallRows(s.worker) && AllFit(s.worker.log)
  }

  lemma DrawingSmall(w: W.State, op: Op)
    requires WriteAllowed(w, op) && SmallOp(op)
    ensures D.SmallDraws(Drawing(op)) && D.SmallDraws(Sending(op, w.next + 1))
  {
    assert forall i :: 0 < i < |Drawing(op)| ==> Drawing(op)[i] == op.sending[i - 1];
    var rest := op.registering + [W.Register(w.next + 1)] + op.waiting;
    assert forall i :: 0 <= i < |rest| ==> W.ByWorker(rest[i]) || rest[i].Register?;
    hide IsWrite;
  }

  lemma WriteKeepsReadable(s: C.State, op: Op)
    requires C.Inv(s) && Readable(s) && OpAllowed(s, op) && SmallOp(op) && op.Command? && op.q.methodId != GET
    ensures Readable(OpStep(s, op))
  {
    var w, lsn := s.worker, s.worker.next + 1;
    WriteStep(s, op);
    DrawingSmall(w, op);
    hide W.Step, W.Enabled, W.Allowed, W.After, D.WrittenBy, D.SmallRows, AllFit, D.SmallDraws, OpStep, WriteAnswer,
         W.Inv, IsWrite, Apply, AllWrites, Run;
    D.LoggedRowsFit(w, Drawing(op));
    W.RunInv(w, Drawing(op));
    var t := W.After(w, Drawing(op));
    if W.Enabled(t, W.Send(lsn)) {
      D.LoggedRowsFit(t, Sending(op, lsn));
    }
    var u := Waited(w, op);
    if W.Enabled(u, W.Take(lsn)) {
      TakeKeepsRows(u, lsn);
    }
  }

  lemma TakeKeepsRows(u: W.State, lsn: U64)
    requires W.Enabled(u, W.Take(lsn)) && D.SmallRows(u) && AllFit(u.log)
    ensures D.SmallRows(W.Step(u, W.Take(lsn))) && AllFit(W.Step(u, W.Take(lsn)).log)
  {
  }

  lemma OpKeepsReadable(s: C.State, op: Op)
    requires C.Inv(s) && Readable(s) && OpAllowed(s, op) && SmallOp(op)
    ensures Readable(OpStep(s, op))
  {
    if op.Crash? {
      hide Run, W.MaxLsn, Marshalable, C.Inv;
    } else if op.q.methodId != GET {
      WriteKeepsReadable(s, op);
    }
  }

  lemma CrashAllowed(s: C.State)
    requires C.Inv(s) && AllFit(s.worker.log)
    ensures OpAllowed(s, Crash)
  {
    C.LogWrites(s.worker);
  }

  lemma {:induction false} OpsSnoc(s: C.State, ops: seq<Op>, op: Op)
    requires OpsAllowed(s, ops) && OpAllowed(AfterOps(s, ops), op)
    ensures OpsAllowed(s, ops + [op]) && AfterOps(s, ops + [op]) == OpStep(AfterOps(s, ops), op)
    decreases |ops|
  {
    hide OpStep, OpAllowed;
    if ops == [] {
      assert ops + [op] == [op] && [op][1..] == [];
      assert OpsAllowed(OpStep(s, op), []);
    } else {
      OpsSnoc(OpStep(s, ops[0]), ops[1..], op);
      assert (ops + [op])[1..] == ops[1..] + [op];
    }
  }

  // No operation draws more than one LSN, and a crash draws none.
  lemma {:induction false} NextGrows(w: W.State, events: seq<W.Event>)
    requires W.Allowed(w, events) && forall i :: 0 <= i < |events| ==> !events[i].Draw?
    ensures W.After(w, events).next == w.next
    decreases |events|
  {
    if events != [] {
      assert !events[0].Draw?;
      assert W.Step(w, events[0]).next == w.next;
      hide W.Step, W.Enabled;
      NextGrows(W.Step(w, events[0]), events[1..]);
    }
  }

  lemma {:induction false} MaxLsnBelow(log: seq<Row>, n: U64)
    requires forall i :: 0 <= i < |log| ==> log[i].lsn <= n
    ensures W.MaxLsn(log) <= n
  {
    if log != [] {
      MaxLsnBelow(log[..|log| - 1], n);
    }
  }

  lemma WriteNext(w: W.State, op: Op)
    requires WriteAllowed(w, op)
    ensures Waited(w, op).next == w.next + 1
  {
    var lsn, draw := w.next + 1, W.Draw(op.q.methodId, op.q.args);
    DrawStep(w, op);
    DrawsNext(w, draw);
    var t := W.After(w, Drawing(op));
    var rest := op.registering + [W.Register(lsn)] + op.waiting;
    assert forall i :: 0 <= i < |op.sending| ==> W.ByWorker(op.sending[i]);
    assert forall i :: 0 <= i < |rest| ==> W.ByWorker(rest[i]) || rest[i].Register?;
    assert forall i :: 0 < i < |Sending(op, lsn)| ==> Sending(op, lsn)[i] == rest[i - 1];
    hide W.Step, W.Enabled, W.Allowed, W.After, D.WrittenBy;
    NextGrows(W.Step(w, draw), op.sending);
    if W.Enabled(t, W.Send(lsn)) {
      NextGrows(t, Sending(op, lsn));
    }
  }

  lemma OpNext(s: C.State, op: Op)
    requires C.Inv(s) && OpAllowed(s, op)
    ensures OpStep(s, op).worker.next <= s.worker.next + 1
  {
    if op.Crash? {
      assert forall i :: 0 <= i < |s.worker.log| ==> s.worker.log[i] == s.worker.sent[i];
      MaxLsnBelow(s.worker.log, s.worker.next);
    } else if op.q.methodId != GET {
      WriteNext(s.worker, op);
      WriteStep(s, op);
      hide W.Allowed, W.After, D.WrittenBy, Waited, OpStep, C.Inv;
    }
  }

  // One operation on real objects: a command executed on the node, or a crash that leaves only its files.
  method OperateOne(db: Database, op: Op, names: seq<Name>, hash: Bytes -> nat, shards: int, name: Name)
    returns (next: Database, ghost ran: Op, rest: seq<Name>)
    requires db.Consistent() && CanAsk(op) && db.wal.lsn < 0xFFFF_FFFF_FFFF_FFFF
    requires op.Crash? ==> AllFit(db.wal.written)
    requires Spare(db.wal.View(), names) >= 1 && FreshNames(db.wal.writer.segs, names)
    modifies db, db.st, db.wal, db.wal.writer, db.wal.writer.seg
    ensures next.Consistent() && OpAllowed(old(db.View()), ran) && SameOp(old(db.View()), op, ran)
    ensures next.View() == OpStep(old(db.View()), ran)
    ensures old(Readable(db.View())) && SmallOp(op) ==> Readable(next.View())
    ensures next.wal.lsn <= old(db.wal.lsn) + 1
    ensures |next.wal.writer.segs| > 0 && FreshNames(next.wal.writer.segs, rest)
    ensures next.wal.writer.seg.maxSize == db.wal.writer.seg.maxSize
    ensures old(db.wal.writer.Tidy()) ==> next.wal.writer.Tidy()
    ensures Spare(next.wal.View(), rest) >= Spare(old(db.wal.View()), names) - 1
    ensures next == db ||
            (fresh(next) && fresh(next.st) && fresh(next.wal) && fresh(next.wal.writer) && fresh(next.wal.writer.seg))
  {
    hide Wal.WAL.Valid, SegmentManager.Manager.Tidy, C.Inv, OpStep, OpAllowed, FreshNames, Readable, Undisturbed,
         IsCommand, SegsOf, W.Start, AllFit;
    ghost var before := db.View();
    Wal.SegsOfWal(db.wal);
    match op {
      case Command(q, sending, registering, waiting) =>
        var answer;
        answer, ran, rest := db.Execute(q, sending, registering, waiting, names);
        next := db;
        RanIsAsked(op, ran, before);
      case Crash =>
        ran, rest := Crash, names;
        CrashAllowed(before);
        var r := CrashAndRestore(db, hash, shards, name);
        next := r.db;
        CrashLeavesNothing(before);
    }
    if Readable(before) && SmallOp(op) {
      OpKeepsReadable(before, ran);
    }
    OpNext(before, ran);
  }

  lemma CrashLeavesNothing(s: C.State)
    requires OpAllowed(s, Crash)
    ensures OpStep(s, Crash).worker.queue == [] && OpStep(s, Crash).worker.buf == []
  {
  }

  lemma RanIsAsked(op: Op, ran: Op, s: C.State)
    requires op.Command? && CanAsk(op) && OpAllowed(s, ran) && OpAsAsked(s, op, ran)
    requires NoCancel(op.sending) && NoCancel(op.registering) && NoCancel(op.waiting) ==> Undisturbed(ran)
    ensures SameOp(s, op, ran) && (SmallOp(op) ==> SmallOp(ran))
  {
  }

  // The whole run on real objects: it is a run of operations, the same commands and crashes, and what is proved of
  // those holds of the objects and their files. It ends early only before a crash over a log that cannot be read
  // back, which rows of at most 65535 arguments rule out; what such a crash does is in `CrashAndRestore`.
  method Operate(db: Database, ops: seq<Op>, names: seq<Name>, hash: Bytes -> nat, shards: int, name: Name)
    returns (last: Database, ghost ran: seq<Op>)
    requires db.Consistent() && forall i :: 0 <= i < |ops| ==> CanAsk(ops[i])
    requires db.wal.lsn + |ops| <= 0xFFFF_FFFF_FFFF_FFFF
    requires Spare(db.wal.View(), names) >= |ops| && FreshNames(db.wal.writer.segs, names)
    modifies db, db.st, db.wal, db.wal.writer, db.wal.writer.seg
    ensures last.Consistent() && |ran| <= |ops| && OpsAllowed(old(db.View()), ran)
    ensures Performed(old(db.View()), ops[..|ran|], ran)
    ensures last.View() == AfterOps(old(db.View()), ran)
    ensures |ran| < |ops| ==> ops[|ran|].Crash? && !AllFit(last.wal.written)
    ensures old(Readable(db.View())) && (forall i :: 0 <= i < |ops| ==> SmallOp(ops[i])) ==> |ran| == |ops|
    ensures OpsAllowed(old(db.View()), ops) ==> |ran| == |ops| && last.View() == AfterOps(old(db.View()), ops)
    ensures last.wal.writer.seg.maxSize == db.wal.writer.seg.maxSize
    ensures old(db.wal.writer.Tidy()) ==>
              && last.wal.writer.Tidy()
              && Bounded(last.wal.writer.seg.files, last.wal.writer.seg.maxSize, last.wal.written)
    ensures NodeOk(old(db.View())) && Answered(old(db.View()), ran) ==>
              && AllWrites(Log(last.wal.writer.segs))
              && last.st.Contents() == Run(map[], Log(last.wal.writer.segs))
              && Holds(Log(last.wal.writer.segs), |old(db.View()).worker.log|,
                       Accepted(!W.Clear(old(db.View()).worker), ran))
  {
    hide SegmentManager.Manager.Tidy, C.Inv, OpsAllowed, AfterOps, Readable, Wal.WAL.Valid, Answered, NodeOk, Holds,
         Accepted, Run, AllWrites, Log, W.Clear, CanAsk, InMemory.Engine.Valid, Performed, AllFit, SmallOp, Bounded,
         FreshNames, SegmentManager.Manager.Valid;
    ghost var start := db.View();
    last, ran := RunOps(db, ops, names, hash, shards, name);
    if OpsAllowed(start, ops) {
      RanToTheEnd(start, ops, ran, last.wal.written);
    }
    Wal.SegsOfWal(last.wal);
    if last.wal.writer.Tidy() {
      FilesAreBounded(last.wal.writer);
    }
    if NodeOk(start) && Answered(start, ran) {
      DurableAcrossRestarts(start, ran);
    }
  }

  lemma RanToTheEnd(s: C.State, ops: seq<Op>, ran: seq<Op>, log: seq<Row>)
    requires OpsAllowed(s, ops) && OpsAllowed(s, ran) && |ran| <= |ops| && Performed(s, ops[..|ran|], ran)
    requires log == AfterOps(s, ran).worker.log && (|ran| < |ops| ==> ops[|ran|].Crash? && !AllFit(log))
    ensures |ran| == |ops| && AfterOps(s, ran) == AfterOps(s, ops)
  {
    hide OpStep, OpsAllowed, AfterOps, Performed, AllWrites, Fits;
    OpsUpTo(s, ops, |ran|);
    EveryRunHappens(s, ops[..|ran|], ran);
    assert ops[..|ops|] == ops;
  }

  method RunOps(db: Database, ops: seq<Op>, names: seq<Name>, hash: Bytes -> nat, shards: int, name: Name)
    returns (last: Database, ghost ran: seq<Op>)
    requires db.Consistent() && forall i :: 0 <= i < |ops| ==> CanAsk(ops[i])
    requires db.wal.lsn + |ops| <= 0xFFFF_FFFF_FFFF_FFFF
    requires Spare(db.wal.View(), names) >= |ops| && FreshNames(db.wal.writer.segs, names)
    modifies db, db.st, db.wal, db.wal.writer, db.wal.writer.seg
    ensures last.Consistent() && |ran| <= |ops| && OpsAllowed(old(db.View()), ran)
    ensures Performed(old(db.View()), ops[..|ran|], ran)
    ensures last.View() == AfterOps(old(db.View()), ran)
    ensures |ran| < |ops| ==> ops[|ran|].Crash? && !AllFit(last.wal.written)
    ensures old(Readable(db.View())) && (forall i :: 0 <= i < |ops| ==> SmallOp(ops[i])) ==> |ran| == |ops|
    ensures last.wal.writer.seg.maxSize == db.wal.writer.seg.maxSize
    ensures old(db.wal.writer.Tidy()) ==> last.wal.writer.Tidy()
  {
    hide SegmentManager.Manager.Tidy, C.Inv, OpStep, OpAllowed, FreshNames, Readable, Wal.WAL.Valid, Run, AllWrites,
         Log, SameOp, CanAsk, OpsAllowed, AfterOps, InMemory.Engine.Valid, Performed, AllFit, SmallOp;
    ghost var start, limit := db.View(), db.wal.writer.seg.maxSize;
    Wal.SegsOfWal(db.wal);
    NoOps(start);
    assert ops[..0] == [];
    last, ran := db, [];
    var rest, i := names, 0;
    while i < |ops| && (ops[i].Crash? ==> AllFit(last.wal.written))
      invariant 0 <= i <= |ops| && |ran| == i
      invariant last == db ||
                (fresh(last) && fresh(last.st) && fresh(last.wal) && fresh(last.wal.writer) &&
                fresh(last.wal.writer.seg))
      invariant last.Consistent() && last.wal.lsn <= start.worker.next + i
      invariant Readable(start) && (forall k :: 0 <= k < |ops| ==> SmallOp(ops[k])) ==> Readable(last.View())
      invariant |last.wal.writer.segs| > 0 && FreshNames(last.wal.writer.segs, rest)
      invariant last.wal.writer.seg.maxSize == limit && (old(db.wal.writer.Tidy()) ==> last.wal.writer.Tidy())
      invariant Spare(last.wal.View(), rest) >= |ops| - i
      invariant OpsAllowed(start, ran) && Performed(start, ops[..i], ran) && last.View() == AfterOps(start, ran)
    {
      ghost var one;
      last, one, rest := OperateOne(last, ops[i], rest, hash, shards, name);
      OpsSnoc(start, ran, one);
      PerformedMore(start, ops[..i], ran, ops[i], one);
      assert ops[..i] + [ops[i]] == ops[..i + 1];
      ran := ran + [one];
      i := i + 1;
    }
    if Readable(last.View()) {
      ReadableFits(last.View());
    }
  }

  // The files hold the log and nothing else, each within the limit or with a single row in it, and of k >= 2 files
  // there are more than floor(k/2) times the limit in bytes.
  ghost predicate Bounded(files: seq<File>, max: nat, log: seq<Row>)
  {
    && DiskBytes(files) == EncodeAll(log)
    && (forall i :: 0 <= i < |files| ==> |files[i].data| <= max || OneRow(files[i].data))
    && (|files| >= 2 ==> |files| / 2 * max < |DiskBytes(files)|)
  }

  ghost predicate OneRow(data: Bytes)
  {
    exists row :: data == Encode(row)
  }

  lemma FilesAreBounded(sm: SegmentManager.Manager)
    requires sm.Valid() && sm.Tidy()
    ensures Bounded(sm.seg.files, sm.seg.maxSize, Log(sm.segs))
  {
    hide Encode, IndexAgrees, Formed, Log, TotalSize;
    var files, max := sm.seg.files, sm.seg.maxSize;
    DiskHoldsTheLog(sm.segs);
    forall i | 0 <= i < |files| ensures |files[i].data| <= max || OneRow(files[i].data) {
      if |sm.segs[i].rows| == 1 {
        EncodeAllOne(sm.segs[i].rows[0]);
        assert sm.segs[i].rows == [sm.segs[i].rows[0]];
        assert files[i].data == Encode(sm.segs[i].rows[0]);
      }
    }
    if |files| >= 2 {
      SegmentCountBound(sm.segs, max);
    }
  }

  lemma ReadableFits(s: C.State)
    requires Readable(s)
    ensures AllFit(s.worker.log)
  {
  }

  // The first start of the program, over an empty directory: everything `Operate` asks for.
  method FirstStart(maxSize: nat, name: Name, batch: nat, hash: Bytes -> nat, shards: int) returns (db: Database)
    requires name != []
    ensures fresh(db) && fresh(db.st) && fresh(db.wal) && fresh(db.wal.writer) && fresh(db.wal.writer.seg)
    ensures db.Consistent() && NodeOk(db.View()) && Readable(db.View()) && db.wal.lsn == 0
    ensures db.wal.writer.segs == [Seg(name, [])] && db.wal.queryCh == [] && db.wal.queryBuf == []
    ensures db.wal.writer.seg.maxSize == maxSize && db.wal.writer.Tidy()
    ensures db.wal.flushBatchSize == if batch == 0 then 100 else batch
  {
    hide SegmentManager.Manager.Valid, Wal.WAL.Valid, C.Inv, Run, Rebuilt, Parse, FailsAt, IndexAgrees, W.Inv, Formed,
         InMemory.Engine.Valid, NodeOk, Log, SegsOf, Render, Executable, Writes, W.Startable, W.MaxLsn, Readable;
    var sm := SegmentManager.OpenEmpty(maxSize, name);
    NothingFound(sm);
    var st := new InMemory.Engine(hash, shards);
    var r := Restore(st, sm, batch);
    db := r.db;
    RestoredManager(sm);
    assert W.MaxLsn([]) == 0 by { NoLsn(); }
    assert db.View() == C.Started(if batch == 0 then 100 else batch, []);
    FirstNodeOk(if batch == 0 then 100 else batch);
    NodeIsReadable(db.View());
  }

  lemma NothingFound(sm: SegmentManager.Manager)
    requires sm.Valid() && |sm.segs| == 1 && sm.segs[0].rows == []
    ensures sm.seg.Valid() && Formed(sm.segs) && sm.seg.files == Render(sm.segs)
    ensures SegsOf(sm.seg.files) == sm.segs && Log(sm.segs) == [] && Executable([]) && Writes([]) == []
    ensures W.Startable([]) && IndexAgrees(sm.segs, Rebuilt(sm.segs), []) && Run(map[], []) == map[]
  {
    assert sm.segs[..0] == [];
    RebuiltAgrees(sm.segs);
    SegsOfRendered(sm.segs);
    hide Formed, IndexAgrees, Rebuilt;
  }

  lemma NoLsn()
    ensures W.MaxLsn([]) == 0
  {
  }

  lemma NodeIsReadable(s: C.State)
    requires NodeOk(s) && s.worker.sent == [] && s.worker.log == [] && s.worker.drawn == map[]
    ensures C.Inv(s) && Readable(s)
  {
  }

  lemma NoOps(s: C.State)
    ensures OpsAllowed(s, []) && AfterOps(s, []) == s && Performed(s, [], [])
  {
  }
}
