// internal/database/wal/wal.go as an object over the segment manager: each method is one step of the machine in
// WalWorker.dfy, and `flush` writes to the files.
module Wal {
  import opened Wrappers
  import opened ByteCodec
  import opened WalRecord
  import opened LogStream
  import opened Directory
  import opened Segments
  import opened WalWorker
  import opened Durability
  import SegmentManager

  class WAL {
    const flushBatchSize: nat
    const writer: SegmentManager.Manager
    var lsn: U64                       // the LSN generator
    var queryCh: seq<Row>
    var queryBuf: seq<Row>
    var futureResp: seq<U64>
    var replies: map<U64, Reply>
    var phase: Phase                   // where the worker goroutine is
    var drawn: map<U64, Row>           // writers with a row to send
    var unregistered: set<U64>         // writers with a future to register

    // What happened so far.
    var written: seq<Row>
    var sent: seq<Row>
    var answers: map<U64, bool>
    var cancelled: bool

    function View(): (s: State)
      reads this
    {
      State(flushBatchSize, lsn, drawn, unregistered, futureResp, queryCh, queryBuf, phase, replies, written, sent,
            answers, cancelled)
    }

    // The files hold exactly the log of the machine.
    ghost predicate Valid()
      reads this, writer, writer.seg
    {
      flushBatchSize > 0 && writer.Valid() && Log(writer.segs) == written && Inv(View())
    }

    // A worker over restored files goes on from the largest LSN found there.
    constructor (flushBatchSize: nat, writer: SegmentManager.Manager, restored: seq<Row>)
      ensures this.writer == writer
      ensures View() == Start(if flushBatchSize == 0 then 100 else flushBatchSize, restored)
      ensures writer.Valid() && Log(writer.segs) == restored && Startable(restored) ==> Valid()
    {
      hide MaxLsn, Inv, Startable, Log, SegmentManager.Manager.Valid;
      this.flushBatchSize := if flushBatchSize == 0 then 100 else flushBatchSize;
      this.writer, lsn := writer, MaxLsn(restored);
      queryCh, queryBuf, futureResp, replies, phase := [], [], [], map[], Waiting;
      drawn, unregistered, written, sent, answers, cancelled := map[], {}, restored, restored, map[], false;
      new;
      if Startable(restored) {
        StartInv(this.flushBatchSize, restored);
      }
    }

    // `Write`, in its three steps.

    method NewRow(methodId: Byte, args: seq<Bytes>)
      requires Enabled(View(), Draw(methodId, args))
      modifies this
      ensures View() == Step(old(View()), Draw(methodId, args))
    {
      lsn := lsn + 1;
      replies := replies[lsn := FRESH];
      drawn := drawn[lsn := Row(lsn, methodId, args)];
    }

    method SendRow(lsn: U64)
      requires Enabled(View(), Send(lsn))
      modifies this
      ensures View() == Step(old(View()), Send(lsn))
    {
      var row := drawn[lsn];
      queryCh := queryCh + [row];
      drawn, unregistered, sent := drawn - {lsn}, unregistered + {lsn}, sent + [row];
    }

    method RegisterFuture(lsn: U64)
      requires Enabled(View(), Register(lsn))
      modifies this
      ensures View() == Step(old(View()), Register(lsn))
    {
      futureResp := futureResp + [lsn];
      unregistered := unregistered - {lsn};
    }

    // The answer taken by the writer that waits for it.
    method GetResponse(lsn: U64) returns (ok: bool)
      requires Enabled(View(), Take(lsn))
      modifies this
      ensures View() == Step(old(View()), Take(lsn)) && ok == old(replies)[lsn].buffered[0]
    {
      ok := replies[lsn].buffered[0];
      replies := replies[lsn := Reply(replies[lsn].buffered[1..], replies[lsn].closed)];
    }

    // The worker's select, by the case that fires.

    method OnRow()
      requires Enabled(View(), Receive)
      modifies this
      ensures View() == Step(old(View()), Receive)
    {
      var q := queryCh[0];
      queryCh := queryCh[1..];
      queryBuf := queryBuf + [q];
      if |queryBuf| >= flushBatchSize {
        phase := Flushing(false);
      }
    }

    method OnTick()
      requires Enabled(View(), Tick)
      modifies this
      ensures View() == Step(old(View()), Tick)
    {
      if |queryBuf| > 0 {
        phase := Flushing(false);
      }
    }

    method OnCancel()
      requires Enabled(View(), Cancel)
      modifies this
      ensures View() == Step(old(View()), Cancel)
    {
      phase, cancelled := Draining, true;
    }

    // One turn of the loop that empties the queue; senders may run between any two.
    method OnDrain()
      requires phase.Draining?
      modifies this
      ensures View() == Step(old(View()), if old(queryCh) != [] then DrainOne else DrainEnd)
    {
      if queryCh != [] {
        queryBuf := queryBuf + [queryCh[0]];
        queryCh := queryCh[1..];
      } else {
        phase := Flushing(true);
      }
    }

    // `flush`, first half. The files take the whole buffer or none of it, and refuse it exactly when a row of it
    // cannot be encoded.
    // `names` are those the clock will give to new files, `rest` what is left of them.
    method FlushWrite(names: seq<Name>) returns (ok: bool, rest: seq<Name>)
      requires phase.Flushing? && Valid()
      requires |names| >= |queryBuf| && FreshNames(writer.segs, names)
      modifies this, writer, writer.seg
      ensures View() == Wrote(old(View()), ok)
      ensures Valid() && (ok <==> Encodable(old(queryBuf)))
      ensures |rest| + |old(queryBuf)| >= |names| + |queryBuf|
      ensures |writer.segs| > 0 && FreshNames(writer.segs, rest)
      ensures old(writer.Tidy()) ==> writer.Tidy()
    {
      hide Inv, Encodable, Log, SegmentManager.Manager.Valid, SegmentManager.Manager.Tidy, FreshNames;
      ghost var before := View();
      OneStepInv(before, WriteOk);
      OneStepInv(before, WriteFails);
      ok, rest := WriteOut(names);
      assert View() == before;
      if ok {
        written := written + queryBuf;
        queryBuf := [];
      }
      phase := Answering(ok, phase.last);
    }

    method WriteOut(names: seq<Name>) returns (ok: bool, rest: seq<Name>)
      requires writer.Valid() && |names| >= |queryBuf| && FreshNames(writer.segs, names)
      modifies writer, writer.seg
      ensures writer.Valid() && (ok <==> Encodable(queryBuf))
      ensures Log(writer.segs) == if ok then old(Log(writer.segs)) + queryBuf else old(Log(writer.segs))
      ensures |writer.segs| > 0 && FreshNames(writer.segs, rest)
      ensures |rest| >= if ok then |names| - |queryBuf| else |names|
      ensures old(writer.Tidy()) ==> writer.Tidy()
    {
      hide IndexAgrees, Place, SegmentManager.Manager.Tidy, Encodable, BatchKeys, Lsns, FreshNames, WellFormed,
           Formed, Log;
      var before := |writer.seg.files|;
      PlaceConserves(writer.segs, writer.seg.maxSize, queryBuf, names);
      PlaceUses(writer.segs, writer.seg.maxSize, queryBuf, names);
      ok := writer.Write(queryBuf, names);
      rest := names[|writer.seg.files| - before..];
      assert names[0..] == names;
    }

    // `flush`, second half: swap the registered futures out, then answer and close each.
    // `Put` is only called where it can neither block nor panic.
    method FlushAnswer()
      requires phase.Answering? && FuturesOk(View())
      modifies this
      ensures old(Enabled(View(), Answer)) && View() == Step(old(View()), Answer)
    {
      hide PutAll, FuturesOk, CanPut;
      var resp := futureResp;
      FuturesReady(View());
      futureResp := [];
      AnswerAll(resp, phase.ok);
      answers := answers + Told(resp, phase.ok);
      phase := if phase.last then Stopped else Waiting;
    }

    method AnswerAll(resp: seq<U64>, ok: bool)
      requires forall i :: 0 <= i < |resp| ==> resp[i] in replies && CanPut(replies[resp[i]])
      requires forall i, j :: 0 <= i < j < |resp| ==> resp[i] != resp[j]
      modifies this`replies
      ensures replies == PutAll(old(replies), resp, ok)
    {
      ghost var first := replies;
      for i := 0 to |resp|
        invariant replies == PutAll(first, resp[..i], ok)
      {
        PutAllOnce(first, resp[..i], ok, resp[i]);
        assert resp[..i + 1][..i] == resp[..i];
        Put(resp[i], ok);
      }
      assert resp[..|resp|] == resp;
    }

    // Put followed by Done on one future.
    method Put(lsn: U64, ok: bool)
      requires lsn in replies && CanPut(replies[lsn])
      modifies this`replies
      ensures replies == old(replies)[lsn := Answered(old(replies)[lsn], ok)]
    {
      replies := replies[lsn := Reply(replies[lsn].buffered + [ok], replies[lsn].closed)];
      replies := replies[lsn := Reply(replies[lsn].buffered, true)];
    }

    // Whatever a schedule asks for next, if it can happen. How a flush ends is up to the files.
    method Perform(e: Event, names: seq<Name>) returns (taken: seq<Event>, rest: seq<Name>)
      requires Valid() && |names| >= |queryCh| + |queryBuf| && FreshNames(writer.segs, names)
      modifies this, writer, writer.seg
      ensures Valid() && |writer.segs| > 0 && FreshNames(writer.segs, rest)
      ensures |rest| + old(|queryCh| + |queryBuf|) + (if e.Send? then 1 else 0) >= |names| + |queryCh| + |queryBuf|
      ensures old(writer.Tidy()) ==> writer.Tidy()
      ensures taken == Taken(old(View()), e)
      ensures taken == [] ==> View() == old(View())
      ensures taken != [] ==>
                && taken == [taken[0]] && old(Enabled(View(), taken[0])) && View() == Step(old(View()), taken[0])
                && Obeys(SegmentFiles, old(View()), taken[0])
    {
      hide SegmentManager.Manager.Valid, SegmentManager.Manager.Tidy, Log, PutAll, Encodable, Inv, FreshNames;
      rest := names;
      FilesOf(writer);
      if !Enabled(View(), e) {
        return [], rest;
      }
      if e.WriteOk? || e.WriteFails? {
        var ok;
        ok, rest := FlushWrite(names);
        return [if ok then WriteOk else WriteFails], rest;
      }
      OneStepInv(View(), e);
      FuturesOfInv(View());
      match e {
        case Draw(methodId, args) => NewRow(methodId, args);
        case Send(lsn) => SendRow(lsn);
        case Register(lsn) => RegisterFuture(lsn);
        case Take(lsn) => var ok := GetResponse(lsn);
        case Receive => OnRow();
        case Tick => OnTick();
        case Cancel => OnCancel();
        case DrainOne => OnDrain();
        case DrainEnd => OnDrain();
        case Answer => FlushAnswer();
      }
      return [e], rest;
    }
  }

  lemma SegsOfWal(w: WAL)
    requires w.Valid()
    ensures |w.writer.segs| > 0 && w.writer.Valid() && Inv(w.View()) && Log(w.writer.segs) == w.written
  {
    FilesOf(w.writer);
  }

  lemma FuturesOfInv(s: State)
    requires Inv(s)
    ensures FuturesOk(s)
  {
  }

  // A row decodes somewhere in the files, as what its encoding keeps of it: itself, up to 65535 arguments.
  ghost predicate OnDisk(files: seq<File>, row: Row)
  {
    exists i: nat, offset: nat :: i < |files| && offset <= |files[i].data| &&
      Decode(files[i].data[offset..]) == Some((Kept(row), |Encode(Kept(row))|))
  }

  lemma {:induction false} Locate(segs: seq<Seg>, p: nat) returns (i: nat, j: nat)
    requires p < |Log(segs)|
    ensures i < |segs| && j < |segs[i].rows| && segs[i].rows[j] == Log(segs)[p]
  {
    var k := |segs| - 1;
    if p < |Log(segs[..k])| {
      i, j := Locate(segs[..k], p);
    } else {
      i, j := k, p - |Log(segs[..k])|;
    }
  }

  lemma LoggedIsOnDisk(segs: seq<Seg>, p: nat)
    requires p < |Log(segs)| && Marshalable(Log(segs)[p])
    ensures OnDisk(Render(segs), Log(segs)[p])
  {
    hide Decode, Encode, EncodeAll, Log, Marshalable, Kept;
    var i, j := Locate(segs, p);
    var rows := segs[i].rows;
    var offset, tail := |EncodeAll(rows[..j])|, EncodeAll(rows[j..][1..]);
    EncodeAllSplit(rows, j);
    EncodeAllSplit(rows[j..], 1);
    assert rows[j..][..1] == [rows[j]];
    EncodeAllOne(rows[j]);
    assert Render(segs)[i].data[offset..] == Encode(rows[j]) + tail;
    DecodeCounted(rows[j], tail);
  }

  // A row truthfully told OK is on disk, byte for byte.
  lemma ToldOkIsOnDisk(s: State, segs: seq<Seg>, k: nat)
    requires Inv(s) && OkTold(s) && Encodable(s.log) && Log(segs) == s.log
    requires k < |s.sent| && ToldOk(s, s.sent[k].lsn)
    ensures OnDisk(Render(segs), s.sent[k])
  {
    hide FuturesOk, PhaseOk, OnDisk, Log, Marshalable;
    assert Has(s.log, s.sent[k].lsn);
    var p :| 0 <= p < |s.log| && s.log[p].lsn == s.sent[k].lsn;
    assert s.log[p] == s.sent[p];
    assert p == k;
    LoggedIsOnDisk(segs, p);
  }

  lemma WaitedRowsOnDisk(batch: nat, restored: seq<Row>, events: seq<Event>, segs: seq<Seg>)
    requires Startable(restored) && Encodable(restored) && Allowed(Start(batch, restored), events)
    requires WrittenBy(SegmentFiles, Start(batch, restored), events)
    requires Follows(Waited(|restored|), Start(batch, restored), events)
    requires Log(segs) == After(Start(batch, restored), events).log
    ensures var t := After(Start(batch, restored), events);
            forall k :: 0 <= k < |t.sent| && ToldOk(t, t.sent[k].lsn) ==> OnDisk(Render(segs), t.sent[k])
  {
    hide Startable, Allowed, After, WrittenBy, Follows, Log, OnDisk, Inv, OkTold, MaxLsn, Render, Encodable;
    var s := Start(batch, restored);
    StartInv(batch, restored);
    RunInv(s, events);
    WaitingIsEnough(batch, restored, events);
    LoggedRowsEncodable(s, events);
    var t := After(s, events);
    forall k | 0 <= k < |t.sent| && ToldOk(t, t.sent[k].lsn) ensures OnDisk(Render(segs), t.sent[k]) {
      ToldOkIsOnDisk(t, segs, k);
    }
  }

  lemma RunsNext(s: State, schedule: seq<Event>, i: nat)
    requires i < |schedule|
    ensures var one := Taken(s, schedule[i]);
            Runs(s, schedule[i..]) == one + Runs(if one == [] then s else Step(s, one[0]), schedule[i + 1..])
  {
    hide Taken, Step, Enabled;
    assert schedule[i..][1..] == schedule[i + 1..];
  }

  lemma FilesOf(writer: SegmentManager.Manager)
    requires writer.Valid()
    ensures Formed(writer.segs) && |writer.segs| > 0 && writer.seg.files == Render(writer.segs)
  {
  }

  // End to end, from a restored log and for every schedule: the object follows the machine, its flushes succeed
  // exactly when their rows can be encoded, and if callers wait for every answer each row told OK is in the files.
  method RunWorker(flushBatchSize: nat, writer: SegmentManager.Manager, restored: seq<Row>, schedule: seq<Event>,
                   names: seq<Name>)
    returns (w: WAL, ghost events: seq<Event>)
    requires writer.Valid() && Log(writer.segs) == restored && Startable(restored) && Encodable(restored)
    requires |names| >= |schedule| && FreshNames(writer.segs, names)
    modifies writer, writer.seg
    ensures fresh(w) && w.Valid() && w.writer == writer && (old(writer.Tidy()) ==> writer.Tidy())
    ensures var s := Start(if flushBatchSize == 0 then 100 else flushBatchSize, restored);
            && Allowed(s, events) && w.View() == After(s, events) && WrittenBy(SegmentFiles, s, events)
            && events == Runs(s, schedule)
            && (Allowed(s, schedule) && WrittenBy(SegmentFiles, s, schedule) ==> events == schedule)
            && (Follows(Waited(|restored|), s, events) ==>
                  forall k :: 0 <= k < |w.sent| && ToldOk(w.View(), w.sent[k].lsn) ==>
                    OnDisk(writer.seg.files, w.sent[k]))
  {
    hide SegmentManager.Manager.Valid, SegmentManager.Manager.Tidy, Log, Inv, Step, Enabled, Taken, Startable,
         Encodable, WellFormed, MaxLsn, FreshNames;
    w := new WAL(flushBatchSize, writer, restored);
    ghost var s := w.View();
    FilesOf(writer);
    events := [];
    var rest := names;
    assert schedule[0..] == schedule;
    for i := 0 to |schedule|
      invariant fresh(w) && w.Valid() && w.writer == writer && (old(writer.Tidy()) ==> writer.Tidy())
      invariant |rest| >= |w.queryCh| + |w.queryBuf| + |schedule| - i && |writer.segs| > 0
      invariant FreshNames(writer.segs, rest)
      invariant Allowed(s, events) && w.View() == After(s, events) && WrittenBy(SegmentFiles, s, events)
      invariant events + Runs(w.View(), schedule[i..]) == Runs(s, schedule)
    {
      var taken;
      ghost var before := w.View();
      taken, rest := w.Perform(schedule[i], rest);
      RunsNext(before, schedule, i);
      if taken != [] {
        OneEvent(SegmentFiles, before, taken[0]);
        WrittenCompose(SegmentFiles, s, events, taken);
        events := events + taken;
      }
    }
    assert events + Runs(w.View(), []) == events;
    if Allowed(s, schedule) && WrittenBy(SegmentFiles, s, schedule) {
      RunsAsAsked(s, schedule);
    }
    if Follows(Waited(|restored|), s, events) {
      FilesOf(writer);
      WaitedRowsOnDisk(w.flushBatchSize, restored, events, writer.segs);
    }
  }
}
