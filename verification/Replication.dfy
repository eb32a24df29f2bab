// Master and slave as one step machine (internal/database/replication/master.go `Handle`,
// internal/database/replication/slave.go `getUpdates`, `processRows`, `execStorage`).
// The master's files grow, its index batches are published late and in any order, and the slave polls,
// fails partway, and restarts, all interleaved.
module Replication {
  import opened Wrappers
  import opened ByteCodec
  import opened WalRecord
  import opened LogStream
  import opened Directory
  import opened Segments
  import opened LogReader
  import opened Replay
  import opened Protocol
  import opened SlaveNode
  import Master
  import WalWorker

  // How far the current poll has come.
  datatype Poll =
    | Idle
    | Asked(request: Bytes)                            // request on its way
    | Located(entry: IndexEntry)                       // index entry found by the master
    | Listed(entry: IndexEntry, listing: seq<Seg>)     // directory listed; files being read
    | Replied(message: Bytes, listed: nat)             // reply on its way
    | Applying(rows: seq<Row>, done: nat, listed: nat) // rows written to the slave's log and being applied

  // `applied` and `high` are history: rows of the master's log behind `last`, and rows ever delivered.
  // `listed` above is history too: rows in the master's log when it listed its directory.
  // No guard reads them.
  datatype State = State(
    segs: seq<Seg>, index: Index, pending: seq<Index>,
    poll: Poll, slave: Replica,
    applied: nat, high: nat)

  datatype Event =
    | Grow(after: seq<Seg>, rows: seq<Row>, batches: seq<Index>)
    | Publish(k: nat)
    | Ask
    | Find
    | List
    | Reply(seen: Contents)
    | Deliver
    | LogFails(k: nat)
    | ApplyOne
    | Finish
    | Abort
    | Restart
    | MasterRestart

  // The assumption on the master's log: SET and DEL rows in LSN order, LSNs from 1 up.
  predicate Ordered(log: seq<Row>)
  {
    && AllWrites(log)
    && (forall i :: 0 <= i < |log| ==> log[i].lsn >= 1)
    && InLsnOrder(log)
  }

  function MasterLog(s: State): (log: seq<Row>)
  {
    Log(s.segs)
  }

  function NextLsn(last: U64): (lsn: U64)
  {
    (last + 1) % 0x1_0000_0000_0000_0000
  }

  ghost predicate Init(s: State)
  {
    && |s.segs| == 1 && s.segs[0].name != [] && s.segs[0].rows == []
    && s.index == map[] && s.pending == [] && s.poll == Idle
    && s.slave.store == map[] && s.slave.last == 0
    && (s.slave.wal == None || s.slave.wal == Some([]))
    && s.applied == 0 && s.high == 0
  }

  ghost predicate AllSeen(listing: seq<Seg>, entry: IndexEntry, seen: Contents)
  {
    var names := ListFrom(Names(listing), entry.file);
    forall i :: 0 <= i < |names| ==> names[i] in seen
  }

  // The rows the master reads from an entry, given what it sees in the files.
  ghost function RowsRead(listing: seq<Seg>, entry: IndexEntry, seen: Contents): (rows: seq<Row>)
  {
    if AllSeen(listing, entry, seen) then SuffixRows(ListFrom(Names(listing), entry.file), seen, entry.offset) else []
  }

  // Every listed file was read while the log grew to `now`, and the reply can be framed.
  ghost predicate CanReply(listing: seq<Seg>, now: seq<Seg>, entry: IndexEntry, seen: Contents)
  {
    && 0 < |listing| <= |now| && Observed(listing, now, seen) && AllSeen(listing, entry, seen)
    && |EncodeAll(RowsRead(listing, entry, seen))| < MAX_PAYLOAD
  }

  ghost predicate Enabled(s: State, e: Event)
  {
    match e
    case Grow(after, rows, batches) =>
      && WellFormed(after) && Extends(s.segs, after) && Log(after) == Log(s.segs) + rows && Ordered(Log(after))
      && (forall k :: 0 <= k < |batches| ==> IndexSound(after, batches[k])) && BatchKeys(batches) == Lsns(rows)
    case Publish(k) => k < |s.pending|
    case Ask => s.poll.Idle?
    case Find => s.poll.Asked?
    case List => s.poll.Located?
    case Reply(seen) =>
      s.poll.Listed? && CanReply(s.poll.listing, s.segs, s.poll.entry, seen)
    case Deliver => s.poll.Replied?
    case LogFails(k) => s.poll.Replied? && s.slave.wal.Some? && k <= |RepliedRows(s.poll.message)|
    case ApplyOne => s.poll.Applying? && s.poll.done < |s.poll.rows| && IsWrite(s.poll.rows[s.poll.done])
    case Finish => s.poll.Applying? && 0 < |s.poll.rows| == s.poll.done
    case Abort => true
    case Restart => s.slave.wal.Some? ==> AllWrites(s.slave.wal.value)
    case MasterRestart => true
  }

  ghost function Step(s: State, e: Event): (t: State)
    requires Enabled(s, e)
  {
    match e
    case Grow(after, rows, batches) => s.(segs := after, pending := s.pending + batches)
    case Publish(k) => s.(index := s.index + s.pending[k], pending := Without(s.pending, k))
    case Ask => s.(poll := Asked(RequestBytes(NextLsn(s.slave.last))))
    case Find =>
      (match ReadRequest(s.poll.request)
       case None => s.(poll := Idle)
       case Some(lsn) =>
         if lsn == 0 then s.(poll := Replied(WriteMessage(Failure(LSN_IS_ZERO)), 0))
         else if lsn in s.index then s.(poll := Located(s.index[lsn]))
         else s.(poll := Replied(WriteMessage(Failure(NO_NEW_LOGS)), 0)))
    case List => s.(poll := Listed(s.poll.entry, s.segs))
    case Reply(seen) =>
      var rows := RowsRead(s.poll.listing, s.poll.entry, seen);
      var response := if rows == [] then Failure(NO_NEW_LOGS) else Data(EncodeAll(rows));
      s.(poll := Replied(WriteMessage(response), |Log(s.poll.listing)|))
    case Deliver =>
      var rows := RepliedRows(s.poll.message);
      if rows == [] then s.(poll := Idle)
      else s.(poll := Applying(rows, 0, s.poll.listed),
              slave := s.slave.(wal := Logged(s.slave.wal, rows)),
              high := s.applied + |rows|)
    case LogFails(k) =>
      var rows := RepliedRows(s.poll.message);
      if rows == [] then s.(poll := Idle)
      else s.(poll := Idle,
              slave := s.slave.(wal := Logged(s.slave.wal, rows[..k])),
              high := s.applied + |rows|)
    case ApplyOne =>
      s.(poll := s.poll.(done := s.poll.done + 1),
         slave := s.slave.(store := Apply(s.slave.store, s.poll.rows[s.poll.done])))
    case Finish =>
      s.(poll := Idle,
         slave := s.slave.(last := s.poll.rows[|s.poll.rows| - 1].lsn),
         applied := s.applied + |s.poll.rows|)
    case Abort => s.(poll := Idle)
    case Restart =>
      s.(poll := Idle, applied := 0,
         slave := s.slave.(last := 0, store := if s.slave.wal.Some? then Run(map[], s.slave.wal.value) else map[]))
    case MasterRestart =>
      s.(index := Rebuilt(s.segs), pending := [], poll := if s.poll.Applying? || s.poll.Replied? then s.poll else Idle)
  }

  /* ---------- The invariant ---------- */

  function LastLsn(log: seq<Row>, n: nat): (lsn: U64)
    requires n <= |log|
  {
    if n == 0 then 0 else log[n - 1].lsn
  }

  ghost predicate MasterOk(s: State)
  {
    WellFormed(s.segs) && Ordered(MasterLog(s)) && IndexAgrees(s.segs, s.index, s.pending)
  }

  // The position up to which every key of the slave's store has been brought.
  function Reached(s: State): (n: nat)
  {
    if s.poll.Applying? then s.applied + s.poll.done else s.applied
  }

  ghost predicate SlaveOk(s: State)
    requires Ordered(MasterLog(s))
  {
    var log := MasterLog(s);
    && s.applied <= s.high <= |log|
    && s.slave.last == LastLsn(log, s.applied)
    && Between(map[], log, s.slave.store, Reached(s), s.high)
    && (s.slave.wal.Some? ==>
          AllWrites(s.slave.wal.value) && Between(map[], log, Run(map[], s.slave.wal.value), WalReached(s), s.high))
  }

  // The same for the slave's own log, which takes a reply as a whole before any of it is applied.
  function WalReached(s: State): (n: nat)
  {
    if s.poll.Applying? then s.high else s.applied
  }

  // A reply is an error, or the master's log from just after `last`, up to no less than was there when listed.
  ghost predicate ReplyOk(log: seq<Row>, applied: nat, high: nat, message: Bytes, listed: nat)
  {
    || (exists m :: |m| < MAX_PAYLOAD && message == WriteMessage(Failure(m)))
    || (exists q: nat :: applied < q <= |log| && high <= q && listed <= q && IsRun(log, applied, q, message))
  }

  ghost predicate IsRun(log: seq<Row>, p: nat, q: nat, message: Bytes)
    requires p <= q <= |log|
  {
    |EncodeAll(log[p..q])| < MAX_PAYLOAD && message == WriteMessage(Data(EncodeAll(log[p..q])))
  }

  ghost predicate PollOk(s: State)
    requires Ordered(MasterLog(s))
  {
    match s.poll
    case Idle => true
    case Asked(request) => request == RequestBytes(NextLsn(s.slave.last))
    case Located(entry) => Finds(s.segs, NextLsn(s.slave.last), entry) && NextLsn(s.slave.last) != 0
    case Listed(entry, listing) =>
      && WellFormed(listing) && Extends(listing, s.segs)
      && Finds(listing, NextLsn(s.slave.last), entry) && NextLsn(s.slave.last) != 0
      && s.high <= |Log(listing)|
    case Replied(message, listed) => ReplyOk(MasterLog(s), s.applied, s.high, message, listed)
    case Applying(rows, done, listed) =>
      && done <= |rows| && 0 < |rows| && s.applied + |rows| == s.high <= |MasterLog(s)|
      && rows == MasterLog(s)[s.applied..s.high]
      && listed <= s.high
  }

  ghost predicate Inv(s: State)
  {
    MasterOk(s) && SlaveOk(s) && PollOk(s)
  }

  /* ---------- Every step keeps it ---------- */

  lemma InitInv(s: State)
    requires Init(s)
    ensures Inv(s)
  {
    assert s.segs[..0] == [];
    assert Log(s.segs) == [];
    assert IndexAgrees(s.segs, s.index, s.pending) by {
      assert BatchKeys([]) == {};
      assert Lsns([]) == {};
    }
    BetweenReached(map[], [], 0, 0, 0);
    assert Ascending(Names(s.segs));
  }

  lemma GrowInv(s: State, e: Event)
    requires Inv(s) && e.Grow? && Enabled(s, e)
    ensures Inv(Step(s, e))
  {
    hide WellFormed, IndexAgrees, Between, Finds, IndexSound, BatchKeys, Lsns, Log, IsRun;
    var t := Step(s, e);
    var log := MasterLog(s);
    GrowAgrees(s.segs, s.index, s.pending, e.after, e.rows, e.batches);
    assert MasterLog(t) == log + e.rows;
    assert AllWrites(e.rows) by {
      assert forall i :: 0 <= i < |e.rows| ==> e.rows[i] == (log + e.rows)[|log| + i];
    }
    BetweenGrows(map[], log, e.rows, s.slave.store, Reached(s), s.high, s.high);
    if s.slave.wal.Some? {
      BetweenGrows(map[], log, e.rows, Run(map[], s.slave.wal.value), WalReached(s), s.high, s.high);
    }
    GrowPoll(s, e);
  }

  lemma GrowPoll(s: State, e: Event)
    requires Inv(s) && e.Grow? && Enabled(s, e)
    ensures PollOk(Step(s, e))
  {
    hide WellFormed, IndexAgrees, Between, Finds, IndexSound, BatchKeys, Lsns, Log, EncodeAll, WriteMessage;
    var log := MasterLog(s);
    match s.poll
    case Idle =>
    case Asked(_) =>
    case Located(entry) => FindsPersists(s.segs, e.after, NextLsn(s.slave.last), entry);
    case Listed(_, listing) => ExtendsTransitive(listing, s.segs, e.after);
    case Replied(message, listed) =>
      if q: nat :| s.applied < q <= |log| && s.high <= q && listed <= q && IsRun(log, s.applied, q, message) {
        assert (log + e.rows)[s.applied..q] == log[s.applied..q];
        assert IsRun(log + e.rows, s.applied, q, message);
      }
    case Applying(rows, _, _) =>
      assert (log + e.rows)[s.applied..s.high] == log[s.applied..s.high];
  }

  lemma PublishInv(s: State, e: Event)
    requires Inv(s) && e.Publish? && Enabled(s, e)
    ensures Inv(Step(s, e))
  {
    hide WellFormed, IndexAgrees, Between, Finds, IsRun, ReplyOk;
    PublishAgrees(s.segs, s.index, s.pending, e.k);
  }

  lemma FindInv(s: State, e: Event)
    requires Inv(s) && e.Find? && Enabled(s, e)
    ensures Inv(Step(s, e))
  {
    hide WellFormed, Between, Finds, IsRun, ReadRequest, RequestBytes, WriteMessage, BatchKeys, Lsns;
    RequestRoundTrip(NextLsn(s.slave.last), []);
    assert s.poll.request + [] == s.poll.request;
  }

  lemma ListInv(s: State, e: Event)
    requires Inv(s) && e.List? && Enabled(s, e)
    ensures Inv(Step(s, e))
  {
    hide IndexAgrees, Between, Finds, IsRun, Ordered;
  }

  // In a log in LSN order, the row after the last finished one is the only one that carries the next LSN.
  lemma NextIsAtApplied(log: seq<Row>, applied: nat, p: nat)
    requires Ordered(log) && applied <= |log| && p < |log|
    requires NextLsn(LastLsn(log, applied)) != 0 && log[p].lsn == NextLsn(LastLsn(log, applied))
    ensures p == applied
  {
    InOrder(log, p, applied - 1);
    InOrder(log, applied, p);
    InOrder(log, applied - 1, applied);
  }

  lemma InOrder(log: seq<Row>, i: int, j: int)
    requires Ordered(log)
    ensures 0 <= i < j < |log| ==> log[i].lsn < log[j].lsn
  {
  }

  lemma ReplyInv(s: State, e: Event)
    requires Inv(s) && e.Reply? && Enabled(s, e)
    ensures Inv(Step(s, e))
  {
    hide IndexAgrees, Between, WriteMessage, EncodeAll, ListFrom, SuffixRows, Observed, WellFormed, Extends, Log,
         PointsAt, Finds;
    var listing, entry, log := s.poll.listing, s.poll.entry, MasterLog(s);
    var lsn := NextLsn(s.slave.last);
    var i, j := FoundAt(listing, lsn, entry);
    var q := SuffixRead(listing, s.segs, e.seen, entry, i, j);
    var p := Position(listing, i, j);
    RowAtPosition(listing, s.segs, entry, i, j);
    NextIsAtApplied(log, s.applied, p);
    var rows := RowsRead(listing, entry, e.seen);
    assert rows == log[s.applied..q];
    assert IsRun(log, s.applied, q, WriteMessage(Data(EncodeAll(rows))));
  }

  lemma RowAtPosition(listing: seq<Seg>, now: seq<Seg>, entry: IndexEntry, i: nat, j: nat)
    requires Extends(listing, now) && PointsAt(listing, entry, i, j)
    ensures Position(listing, i, j) < |Log(now)|
    ensures Log(now)[Position(listing, i, j)] == listing[i].rows[j]
  {
    hide EncodeAll;
    PointsAtPersists(listing, now, entry, i, j);
    PositionInLog(now, i, j);
  }

  // What the slave makes of the reply in flight.
  lemma RepliedRowsAre(s: State)
    requires Inv(s) && s.poll.Replied?
    ensures var rows := RepliedRows(s.poll.message);
            rows != [] ==>
              && s.high <= s.applied + |rows| <= |MasterLog(s)| && s.poll.listed <= s.applied + |rows|
              && rows == MasterLog(s)[s.applied..s.applied + |rows|]
  {
    hide IndexAgrees, Between, WriteMessage, ReadMessage, EncodeAll, Parse, Log;
    var log, message := MasterLog(s), s.poll.message;
    assert message + [] == message;
    if m :| |m| < MAX_PAYLOAD && message == WriteMessage(Failure(m)) {
      FramingRoundTrip(Failure(m), []);
    } else {
      var q: nat :| s.applied < q <= |log| && s.high <= q && s.poll.listed <= q && IsRun(log, s.applied, q, message);
      LogFits(s.segs);
      EndToEnd(log[s.applied..q], []);
    }
  }

  lemma DeliverInv(s: State, e: Event)
    requires Inv(s) && (e.Deliver? || e.LogFails?) && Enabled(s, e)
    ensures Inv(Step(s, e))
  {
    hide WellFormed, IndexAgrees, Between, RepliedRows, Log, Run, IsRun, ReplyOk;
    var log, rows := MasterLog(s), RepliedRows(s.poll.message);
    RepliedRowsAre(s);
    if rows != [] {
      var high := s.applied + |rows|;
      assert log + [] == log;
      BetweenGrows(map[], log, [], s.slave.store, s.applied, s.high, high);
      if s.slave.wal.Some? {
        var k := if e.Deliver? then |rows| else e.k;
        assert rows[..k] == log[s.applied..s.applied + k];
        assert rows[..|rows|] == rows;
        LoggedRun(log, s.slave.wal.value, s.applied, s.applied + k, s.high, high);
        BetweenLower(log, Run(map[], s.slave.wal.value + rows[..k]), s.applied + k, s.applied, high);
      }
    }
  }

  lemma LoggedRun(log: seq<Row>, wal: seq<Row>, a: nat, b: nat, high: nat, high': nat)
    requires AllWrites(log) && AllWrites(wal) && Between(map[], log, Run(map[], wal), a, high)
    requires a <= b <= high' <= |log| && high <= high'
    ensures AllWrites(wal + log[a..b])
    ensures Between(map[], log, Run(map[], wal + log[a..b]), b, high')
  {
    hide Between, Run;
    assert log + [] == log;
    BetweenGrows(map[], log, [], Run(map[], wal), a, high, high');
    RunNextRows(map[], log, Run(map[], wal), a, b, high');
    RunConcat(map[], wal, log[a..b]);
  }

  lemma ApplyInv(s: State, e: Event)
    requires Inv(s) && e.ApplyOne? && Enabled(s, e)
    ensures Inv(Step(s, e))
  {
    hide WellFormed, IndexAgrees, Between, Log, Run, Apply;
    ApplyNext(map[], MasterLog(s), s.slave.store, Reached(s), s.high);
  }

  lemma FinishInv(s: State, e: Event)
    requires Inv(s) && e.Finish? && Enabled(s, e)
    ensures Inv(Step(s, e))
  {
    hide WellFormed, IndexAgrees, Between, Log, Run;
  }

  lemma AbortInv(s: State, e: Event)
    requires Inv(s) && e.Abort? && Enabled(s, e)
    ensures Inv(Step(s, e))
  {
    hide WellFormed, IndexAgrees, Log, Run, IsRun, ReplyOk;
    BetweenLower(MasterLog(s), s.slave.store, Reached(s), s.applied, s.high);
    if s.slave.wal.Some? {
      BetweenLower(MasterLog(s), Run(map[], s.slave.wal.value), WalReached(s), s.applied, s.high);
    }
  }

  lemma BetweenLower(log: seq<Row>, store: Store, lo: nat, lo': nat, hi: nat)
    requires AllWrites(log) && Between(map[], log, store, lo, hi) && lo' <= lo
    ensures Between(map[], log, store, lo', hi)
  {
    hide HoldsAt;
    forall key ensures KeyBetween(map[], log, store, lo', hi, key) {
      assert KeyBetween(map[], log, store, lo, hi, key);
    }
  }

  lemma RestartInv(s: State, e: Event)
    requires Inv(s) && e.Restart? && Enabled(s, e)
    ensures Inv(Step(s, e))
  {
    hide WellFormed, IndexAgrees, Between, Log, IsRun, ReplyOk;
    assert MasterLog(s)[..0] == [];
    BetweenReached(map[], MasterLog(s), 0, 0, s.high);
    if s.slave.wal.Some? {
      BetweenLower(MasterLog(s), Run(map[], s.slave.wal.value), WalReached(s), 0, s.high);
    }
  }

  lemma StepInv(s: State, e: Event)
    requires Inv(s) && Enabled(s, e)
    ensures Inv(Step(s, e))
  {
    hide MasterOk, SlaveOk, PollOk, Step, Inv, Enabled;
    match e
    case Grow(_, _, _) => GrowInv(s, e);
    case Publish(_) => PublishInv(s, e);
    case Ask => AskInv(s, e);
    case Find => FindInv(s, e);
    case List => ListInv(s, e);
    case Reply(_) => ReplyInv(s, e);
    case Deliver => DeliverInv(s, e);
    case LogFails(_) => DeliverInv(s, e);
    case ApplyOne => ApplyInv(s, e);
    case Finish => FinishInv(s, e);
    case Abort => AbortInv(s, e);
    case Restart => RestartInv(s, e);
    case MasterRestart => MasterRestartInv(s, e);
  }

  // A clean crash of the master: its files survive, its index is rebuilt, and a poll it was serving is lost unless the
  // reply is already on its way.
  lemma MasterRestartInv(s: State, e: Event)
    requires Inv(s) && e.MasterRestart? && Enabled(s, e)
    ensures Inv(Step(s, e))
  {
    hide WellFormed, IndexAgrees, Between, Log, Run, Rebuilt, IsRun, ReplyOk;
    RebuiltAgrees(s.segs);
  }

  lemma AskInv(s: State, e: Event)
    requires Inv(s) && e.Ask? && Enabled(s, e)
    ensures Inv(Step(s, e))
  {
    hide WellFormed, IndexAgrees, Between, Log, Run, RequestBytes;
  }

  /* ---------- Whole runs ---------- */

  ghost predicate Allowed(s: State, events: seq<Event>)
    decreases |events|
  {
    events == [] || (Enabled(s, events[0]) && Allowed(Step(s, events[0]), events[1..]))
  }

  ghost function After(s: State, events: seq<Event>): (t: State)
    requires Allowed(s, events)
    decreases |events|
  {
    if events == [] then s else After(Step(s, events[0]), events[1..])
  }

  lemma {:induction false} RunInv(s: State, events: seq<Event>)
    requires Inv(s) && Allowed(s, events)
    ensures Inv(After(s, events))
    decreases |events|
  {
    hide Inv, Step, Enabled;
    if events != [] {
      StepInv(s, events[0]);
      RunInv(Step(s, events[0]), events[1..]);
    }
  }

  // The part of a log up to an LSN.
  function UpTo(log: seq<Row>, last: U64): (rows: seq<Row>)
  {
    if log == [] then []
    else if log[0].lsn <= last then [log[0]] + UpTo(log[1..], last)
    else UpTo(log[1..], last)
  }

  lemma {:induction false} UpToNone(log: seq<Row>, last: U64)
    requires forall i :: 0 <= i < |log| ==> log[i].lsn > last
    ensures UpTo(log, last) == []
  {
    if log != [] {
      UpToNone(log[1..], last);
    }
  }

  lemma {:induction false} UpToApplied(log: seq<Row>, n: nat, last: U64)
    requires n <= |log|
    requires forall i :: 0 <= i < n ==> log[i].lsn <= last
    requires forall i :: n <= i < |log| ==> log[i].lsn > last
    ensures UpTo(log, last) == log[..n]
    decreases n
  {
    if n == 0 {
      UpToNone(log, last);
    } else {
      UpToApplied(log[1..], n - 1, last);
      assert log[..n] == [log[0]] + log[1..][..n - 1];
    }
  }

  lemma LastCovers(s: State)
    requires Inv(s)
    ensures UpTo(MasterLog(s), s.slave.last) == MasterLog(s)[..s.applied]
  {
    hide WellFormed, IndexAgrees, Between, Log;
    var log, n := MasterLog(s), s.applied;
    forall i | 0 <= i < n ensures log[i].lsn <= s.slave.last {
      if i < n - 1 {
        assert log[i].lsn < log[n - 1].lsn;
      }
    }
    forall i | n <= i < |log| ensures log[i].lsn > s.slave.last {
      if n > 0 {
        assert log[n - 1].lsn < log[i].lsn;
      }
    }
    UpToApplied(log, n, s.slave.last);
  }

  // Replication safety, for every run: `last` cuts the master's log at a prefix, and on every key that no later
  // row touches the slave holds exactly what that prefix leaves.
  lemma SlaveAgreesWithMaster(s0: State, events: seq<Event>, key: Bytes)
    requires Init(s0) && Allowed(s0, events)
    ensures var s := After(s0, events);
            var log := MasterLog(s);
            var prefix := UpTo(log, s.slave.last);
            && AllWrites(log) && prefix <= log && AllWrites(prefix)
            && (!Touches(log[|prefix|..], key) ==>
                  Lookup(s.slave.store, key) == Lookup(Run(map[], prefix), key))
  {
    hide WellFormed, IndexAgrees, Between, Log, Run, Step, Enabled;
    InitInv(s0);
    RunInv(s0, events);
    var s := After(s0, events);
    var log := MasterLog(s);
    LastCovers(s);
    if !Touches(log[s.applied..], key) {
      BetweenLower(log, s.slave.store, Reached(s), s.applied, s.high);
      assert !Touches(log[s.applied..s.high], key) by {
        assert forall i :: 0 <= i < s.high - s.applied ==> log[s.applied..s.high][i] == log[s.applied..][i];
      }
      AgreesWhereUntouched(map[], log, s.slave.store, s.applied, s.high, key);
    }
  }

  // After each successful poll the slave is exactly the replay of a prefix of the master's log,
  // one that reaches at least as far as the log did when the master listed its directory,
  // and the slave's own log, duplicates and all, replays to the same store: a restart at this point loses nothing.
  lemma FinishedPollIsAPrefix(s0: State, events: seq<Event>)
    requires Init(s0) && Allowed(s0, events) && Enabled(After(s0, events), Finish)
    ensures var s := After(s0, events);
            var t := Step(s, Finish);
            var log := MasterLog(t);
            var prefix := UpTo(log, t.slave.last);
            && AllWrites(log) && prefix <= log && AllWrites(prefix)
            && t.slave.store == Run(map[], prefix)
            && |prefix| >= s.poll.listed
            && (t.slave.wal.Some? ==>
                  AllWrites(t.slave.wal.value) && Run(map[], t.slave.wal.value) == t.slave.store)
            && Enabled(t, Restart)
            && Step(t, Restart).slave ==
               t.slave.(last := 0, store := if t.slave.wal.Some? then t.slave.store else map[])
  {
    hide WellFormed, IndexAgrees, Between, Log, Run, Allowed, After;
    InitInv(s0);
    RunInv(s0, events);
    var s := After(s0, events);
    FinishInv(s, Finish);
    var t := Step(s, Finish);
    LastCovers(t);
    BetweenPoint(map[], MasterLog(t), t.slave.store, t.applied);
    if t.slave.wal.Some? {
      BetweenPoint(map[], MasterLog(t), Run(map[], t.slave.wal.value), t.applied);
    }
  }

  // Index agreement, for every run: each published entry names bytes that decode to a row with its LSN,
  // and when nothing is pending no logged LSN is missing.
  lemma IndexAgreesInEveryRun(s0: State, events: seq<Event>, lsn: U64)
    requires Init(s0) && Allowed(s0, events)
    ensures var s := After(s0, events);
            && (lsn in s.index ==>
                  exists i: nat :: i < |s.segs| &&
                    var e, f := s.index[lsn], Render(s.segs)[i];
                    f.name == e.file && StartsRow(f.data, e.offset, lsn))
            && (s.pending == [] ==> s.index.Keys == Lsns(MasterLog(s)) && s.index == Rebuilt(s.segs))
  {
    InitInv(s0);
    RunInv(s0, events);
    hide StartsRow, Between, Step, Enabled, Rebuilt, Log, Lsns, WellFormed, IndexSound, Allowed, After;
    var s := After(s0, events);
    if lsn in s.index {
      var i := IndexedBytes(s.segs, s.index, lsn);
    }
    if s.pending == [] {
      AllPublished(s.segs, s.index);
      OrderedIsDistinct(MasterLog(s));
    }
  }

  lemma OrderedIsDistinct(log: seq<Row>)
    requires Ordered(log)
    ensures DistinctLsns(log)
  {
  }

  // The order assumed of the master's log is what the WAL worker produces when rows are sent in LSN order, also over
  // a log it found at its start.
  lemma WorkerLogIsOrdered(batch: nat, log: seq<Row>, events: seq<WalWorker.Event>)
    requires Ordered(log) && WalWorker.Allowed(WalWorker.Start(batch, log), events)
    requires WalWorker.SendsInOrder(WalWorker.Start(batch, log), events)
    requires AllWrites(WalWorker.After(WalWorker.Start(batch, log), events).log)
    ensures WalWorker.Startable(log) && Ordered(WalWorker.After(WalWorker.Start(batch, log), events).log)
  {
    hide WalWorker.Allowed, WalWorker.After, WalWorker.SendsInOrder;
    OrderedIsDistinct(log);
    WalWorker.LogInLsnOrder(batch, log, events);
  }

  /* ---------- Progress ---------- */

  // What an error-free `Write` of the segment manager does to its files and batches is a growth step.
  lemma WriteIsAGrowth(s: State, max: nat, rows: seq<Row>, names: seq<Name>, batches: seq<Index>)
    requires Inv(s) && AllFit(rows) && Ordered(MasterLog(s) + rows)
    requires |names| >= |rows| && FreshNames(s.segs, names)
    requires IndexAgrees(Place(s.segs, max, rows, names), s.index, s.pending + batches)
    requires BatchKeys(batches) == Lsns(rows)
    ensures Enabled(s, Grow(Place(s.segs, max, rows, names), rows, batches))
  {
    hide Place, IndexSound, WellFormed, Between, BatchKeys, Lsns;
    WellFormedIsFormed(s.segs);
    PlaceConserves(s.segs, max, rows, names);
    forall k | 0 <= k < |batches| ensures IndexSound(Place(s.segs, max, rows, names), batches[k]) {
      assert (s.pending + batches)[|s.pending| + k] == batches[k];
    }
  }

  // With LSNs 1..n logged and everything published, the LSN a lagging slave asks for is in the index.
  lemma NoGap(s: State)
    requires Inv(s) && s.pending == [] && s.applied < |MasterLog(s)|
    requires forall i :: 0 <= i < |MasterLog(s)| ==> MasterLog(s)[i].lsn == i + 1
    ensures NextLsn(s.slave.last) in s.index
  {
    hide WellFormed, IndexSound, Between, Log, Rebuilt;
    AllPublished(s.segs, s.index);
    assert NextLsn(s.slave.last) == MasterLog(s)[s.applied].lsn;
  }

  lemma {:induction false} RunsCompose(s: State, a: seq<Event>, b: seq<Event>)
    requires Allowed(s, a) && Allowed(After(s, a), b)
    ensures Allowed(s, a + b) && After(s, a + b) == After(After(s, a), b)
    decreases |a|
  {
    hide Step, Enabled;
    if a == [] {
      assert a + b == b;
    } else {
      RunsCompose(Step(s, a[0]), a[1..], b);
      assert (a + b)[1..] == a[1..] + b;
    }
  }

  lemma OneStep(s: State, e: Event)
    requires Enabled(s, e)
    ensures Allowed(s, [e]) && After(s, [e]) == Step(s, e)
  {
    hide Step, Enabled;
    assert [e][1..] == [];
  }

  // What every file holds at this moment.
  function AllContents(segs: seq<Seg>): (c: Contents)
    requires Ascending(Names(segs))
    ensures forall i :: 0 <= i < |segs| ==> segs[i].name in c && c[segs[i].name] == EncodeAll(segs[i].rows)
    decreases |segs|
  {
    if segs == [] then map[]
    else
      var k := |segs| - 1;
      assert forall i :: 0 <= i < k ==> Names(segs)[i] == Names(segs[..k])[i];
      assert forall i :: 0 <= i < k ==> segs[i].name != segs[k].name by {
        forall i | 0 <= i < k ensures segs[i].name != segs[k].name {
          assert Less(Names(segs)[i], Names(segs)[k]);
          LessIrreflexive(segs[k].name);
        }
      }
      AllContents(segs[..k])[segs[k].name := EncodeAll(segs[k].rows)]
  }

  // Runs in which the slave does not start over and the log does not grow.
  predicate Quiet(events: seq<Event>)
  {
    forall i :: 0 <= i < |events| ==> !events[i].Restart? && !events[i].Grow?
  }

  lemma QuietConcat(a: seq<Event>, b: seq<Event>)
    requires Quiet(a) && Quiet(b)
    ensures Quiet(a + b)
  {
  }

  lemma QuietPoll(seen: Contents)
    ensures Quiet([Ask, Find, List, Reply(seen)]) && Quiet([Deliver]) && Quiet([ApplyOne]) && Quiet([Finish])
  {
  }

  // The polled master answers a slave that can be served with the whole rest of its log.
  lemma PollIsServed(s: State) returns (events: seq<Event>)
    requires Inv(s) && s.poll.Idle? && NextLsn(s.slave.last) != 0 && NextLsn(s.slave.last) in s.index
    requires |EncodeAll(MasterLog(s)[s.applied..])| < MAX_PAYLOAD
    ensures Allowed(s, events) && Quiet(events)
    ensures s.applied < |MasterLog(s)|
    ensures After(s, events) == s.(poll := Replied(WriteMessage(Data(EncodeAll(MasterLog(s)[s.applied..]))),
            |MasterLog(s)|))
  {
    var seen := FullRead(s, s.index[NextLsn(s.slave.last)]);
    hide Inv, Step, Enabled, Log, Quiet;
    EntryIsFound(s);
    ListedIsAnswered(s, s.index[NextLsn(s.slave.last)], seen);
    events := FourSteps(s, Ask, Find, List, Reply(seen));
    QuietPoll(seen);
  }

  lemma EntryIsFound(s: State)
    requires s.poll.Idle? && NextLsn(s.slave.last) != 0 && NextLsn(s.slave.last) in s.index
    ensures Enabled(s, Ask) && Enabled(Step(s, Ask), Find)
    ensures Step(Step(s, Ask), Find) == s.(poll := Located(s.index[NextLsn(s.slave.last)]))
  {
    hide RequestBytes, ReadRequest, WriteMessage;
    var lsn := NextLsn(s.slave.last);
    RequestRoundTrip(lsn, []);
    assert RequestBytes(lsn) + [] == RequestBytes(lsn);
  }

  lemma ListedIsAnswered(s: State, entry: IndexEntry, seen: Contents)
    requires s.applied < |MasterLog(s)|
    requires CanReply(s.segs, s.segs, entry, seen) && RowsRead(s.segs, entry, seen) == MasterLog(s)[s.applied..]
    ensures var s2 := s.(poll := Located(entry));
            && Enabled(s2, List) && Enabled(Step(s2, List), Reply(seen))
            && Step(Step(s2, List), Reply(seen)) ==
               s.(poll := Replied(WriteMessage(Data(EncodeAll(MasterLog(s)[s.applied..]))), |MasterLog(s)|))
  {
    hide Log, EncodeAll, RowsRead, CanReply, WriteMessage;
    var s3 := Step(s.(poll := Located(entry)), List);
    assert s3 == s.(poll := Listed(entry, s.segs));
    assert Enabled(s3, Reply(seen));
    assert |MasterLog(s)[s.applied..]| > 0;
  }

  lemma FourSteps(s: State, a: Event, b: Event, c: Event, d: Event) returns (events: seq<Event>)
    requires Enabled(s, a) && Enabled(Step(s, a), b) && Enabled(Step(Step(s, a), b), c)
    requires Enabled(Step(Step(Step(s, a), b), c), d)
    ensures Allowed(s, events) && After(s, events) == Step(Step(Step(Step(s, a), b), c), d)
    ensures events == [a, b, c, d]
  {
    hide Step, Enabled, Allowed, After;
    events := [a] + [b] + [c] + [d];
    OneStep(s, a);
    OneStep(Step(s, a), b);
    OneStep(Step(Step(s, a), b), c);
    OneStep(Step(Step(Step(s, a), b), c), d);
    RunsCompose(s, [a], [b]);
    RunsCompose(s, [a] + [b], [c]);
    RunsCompose(s, [a] + [b] + [c], [d]);
  }

  // Reading every listed file as it is now.
  lemma FullRead(s: State, entry: IndexEntry) returns (seen: Contents)
    requires Inv(s) && NextLsn(s.slave.last) != 0
    requires NextLsn(s.slave.last) in s.index && entry == s.index[NextLsn(s.slave.last)]
    requires |EncodeAll(MasterLog(s)[s.applied..])| < MAX_PAYLOAD
    ensures s.applied < |MasterLog(s)|
    ensures CanReply(s.segs, s.segs, entry, seen) && RowsRead(s.segs, entry, seen) == MasterLog(s)[s.applied..]
  {
    hide Between, EncodeAll, ListFrom, SuffixRows, PointsAt, Finds, Log, Ascending, Less, Fits;
    seen := AllContents(s.segs);
    assert Finds(s.segs, NextLsn(s.slave.last), entry);
    var i, j := FoundAt(s.segs, NextLsn(s.slave.last), entry);
    var q := SuffixRead(s.segs, s.segs, seen, entry, i, j);
    RowAtPosition(s.segs, s.segs, entry, i, j);
    NextIsAtApplied(MasterLog(s), s.applied, Position(s.segs, i, j));
    assert MasterLog(s)[s.applied..q] == MasterLog(s)[s.applied..];
  }

  lemma {:induction false} ApplyRest(s: State) returns (events: seq<Event>)
    requires Inv(s) && s.poll.Applying?
    ensures Allowed(s, events) && Quiet(events)
    ensures var t := After(s, events);
            Inv(t) && t.segs == s.segs && t.poll == s.poll.(done := |s.poll.rows|) && t.applied == s.applied
    decreases if s.poll.Applying? then |s.poll.rows| - s.poll.done else 0
  {
    if s.poll.done == |s.poll.rows| {
      events := [];
    } else {
      assert IsWrite(s.poll.rows[s.poll.done]);
      hide Inv, Between;
      StepInv(s, ApplyOne);
      var t := Step(s, ApplyOne);
      var rest := ApplyRest(t);
      hide Step, Enabled, Quiet;
      OneStep(s, ApplyOne);
      RunsCompose(s, [ApplyOne], rest);
      QuietPoll(map[]);
      QuietConcat([ApplyOne], rest);
      events := [ApplyOne] + rest;
    }
  }

  // Progress: whenever the next LSN is indexed and the reply can be framed, one undisturbed poll brings the slave
  // to exactly the replay of the whole master log.
  lemma CatchUp(s: State) returns (events: seq<Event>)
    requires Inv(s) && s.poll.Idle? && NextLsn(s.slave.last) != 0 && NextLsn(s.slave.last) in s.index
    requires |EncodeAll(MasterLog(s)[s.applied..])| < MAX_PAYLOAD
    ensures Allowed(s, events) && Quiet(events) && s.applied < |MasterLog(s)|
    ensures var t := After(s, events);
            && MasterLog(t) == MasterLog(s) && t.poll.Idle?
            && AllWrites(MasterLog(s)) && t.slave.store == Run(map[], MasterLog(s))
            && t.slave.last == MasterLog(s)[|MasterLog(s)| - 1].lsn
  {
    hide Inv, Step, Enabled, Allowed, After, Log, Run, EncodeAll, WriteMessage, NextLsn, Quiet;
    var served := PollIsServed(s);
    var s1 := After(s, served);
    RunInv(s, served);
    var rest := AnswerIsApplied(s1);
    RunsCompose(s, served, rest);
    QuietConcat(served, rest);
    events := served + rest;
  }

  // From a reply with the whole rest of the log to its last row applied.
  lemma AnswerIsApplied(s: State) returns (events: seq<Event>)
    requires Inv(s) && s.applied < |MasterLog(s)| && |EncodeAll(MasterLog(s)[s.applied..])| < MAX_PAYLOAD
    requires s.poll == Replied(WriteMessage(Data(EncodeAll(MasterLog(s)[s.applied..]))), |MasterLog(s)|)
    ensures Allowed(s, events) && Quiet(events) && s.applied < |MasterLog(s)|
    ensures var t := After(s, events);
            && MasterLog(t) == MasterLog(s) && t.poll.Idle?
            && AllWrites(MasterLog(s)) && t.slave.store == Run(map[], MasterLog(s))
            && t.slave.last == MasterLog(s)[|MasterLog(s)| - 1].lsn
  {
    hide Inv, Step, Enabled, Allowed, After, Log, Run, EncodeAll, WriteMessage, Quiet;
    var log := MasterLog(s);
    var s2 := DeliverWhole(s, log, s.applied);
    var rest := ApplyRest(s2);
    var s3 := After(s2, rest);
    var last := FinishWhole(s3, log);
    OneStep(s, Deliver);
    RunsCompose(s, [Deliver], rest);
    RunsCompose(s, [Deliver] + rest, [Finish]);
    QuietPoll(map[]);
    QuietConcat([Deliver], rest);
    QuietConcat([Deliver] + rest, [Finish]);
    events := [Deliver] + rest + [Finish];
  }

  lemma RepliedWhole(rows: seq<Row>)
    requires AllFit(rows) && |EncodeAll(rows)| < MAX_PAYLOAD
    ensures RepliedRows(WriteMessage(Data(EncodeAll(rows)))) == rows
  {
    hide EncodeAll, Parse, WriteMessage, ReadMessage;
    EndToEnd(rows, []);
    var message := WriteMessage(Data(EncodeAll(rows)));
    assert message + [] == message;
  }

  lemma MasterLogFits(s: State)
    requires Inv(s)
    ensures AllFit(MasterLog(s))
  {
    hide Log, IndexAgrees, SlaveOk, PollOk, Ordered, Fits;
    LogFits(s.segs);
  }

  lemma DeliverStep(s: State, rows: seq<Row>)
    requires s.poll.Replied? && RepliedRows(s.poll.message) == rows && rows != []
    ensures Enabled(s, Deliver)
    ensures var t := Step(s, Deliver);
            t.segs == s.segs && t.poll == Applying(rows, 0, s.poll.listed) && t.applied == s.applied
  {
    hide RepliedRows;
  }

  lemma DeliverWhole(s: State, log: seq<Row>, applied: nat) returns (t: State)
    requires Inv(s) && log == MasterLog(s) && applied == s.applied < |log|
    requires |EncodeAll(log[applied..])| < MAX_PAYLOAD
    requires s.poll == Replied(WriteMessage(Data(EncodeAll(log[applied..]))), |log|)
    ensures Enabled(s, Deliver) && t == Step(s, Deliver) && Inv(t)
    ensures t.segs == s.segs && t.poll == Applying(log[applied..], 0, |log|) && t.applied == applied
  {
    hide Inv, Step, Enabled, EncodeAll, RepliedRows, WriteMessage, Log, Fits;
    MasterLogFits(s);
    RepliedWhole(log[applied..]);
    DeliverStep(s, log[applied..]);
    StepInv(s, Deliver);
    t := Step(s, Deliver);
  }

  lemma FinishWhole(s: State, log: seq<Row>) returns (t: State)
    requires Inv(s) && log == MasterLog(s) && s.applied < |log|
    requires s.poll == Applying(log[s.applied..], |log| - s.applied, |log|)
    ensures Enabled(s, Finish) && t == Step(s, Finish)
    ensures MasterLog(t) == log && t.poll.Idle?
    ensures AllWrites(log) && t.slave.store == Run(map[], log) && t.slave.last == log[|log| - 1].lsn
    ensures Allowed(s, [Finish]) && After(s, [Finish]) == t
  {
    hide Between, IndexAgrees, Log, Run;
    t := Step(s, Finish);
    OneStep(s, Finish);
    assert log[..|log|] == log;
    BetweenPoint(map[], log, s.slave.store, |log|);
  }

  // The first row logged on a master reaches the slave: from every initial state some run ends with it applied.
  lemma FirstRowReachesTheSlave(s: State, row: Row) returns (events: seq<Event>)
    requires Init(s) && IsWrite(row) && Fits(row) && row.lsn == 1 && |EncodeAll([row])| < MAX_PAYLOAD
    ensures Allowed(s, events)
    ensures MasterLog(After(s, events)) == [row] && After(s, events).slave.store == Apply(map[], row)
  {
    hide Init, Inv, Step, Enabled, Allowed, After, Log, EncodeAll, Run, Apply;
    var before, t := FirstRowIsIndexed(s, row);
    assert [row][0..] == [row];
    var rest := CatchUp(t);
    RunsCompose(s, before, rest);
    events := before + rest;
    RunOneRow(row);
  }

  lemma RunOneRow(row: Row)
    requires IsWrite(row)
    ensures AllWrites([row]) && Run(map[], [row]) == Apply(map[], row)
  {
    assert [row][..0] == [];
  }

  lemma FirstRowIsIndexed(s: State, row: Row) returns (events: seq<Event>, t: State)
    requires Init(s) && IsWrite(row) && Fits(row) && row.lsn == 1
    ensures Allowed(s, events) && t == After(s, events) && Inv(t)
    ensures t.poll.Idle? && MasterLog(t) == [row] && t.applied == 0 && t.slave.last == 0 && 1 in t.index
  {
    hide Init, Inv, Step, Enabled, Allowed, After, Log, Fits, IsWrite;
    var grow, batch := FirstGrowth(s, row);
    var s1 := Step(s, grow);
    GrowThenPublish(s, grow, batch);
    t := Step(s1, Publish(0));
    StepInv(s, grow);
    StepInv(s1, Publish(0));
    OneStep(s, grow);
    OneStep(s1, Publish(0));
    RunsCompose(s, [grow], [Publish(0)]);
    events := [grow] + [Publish(0)];
  }

  lemma GrowThenPublish(s: State, e: Event, batch: Index)
    requires e.Grow? && Enabled(s, e) && e.batches == [batch] && s.pending == [] && s.index == map[]
    ensures Enabled(Step(s, e), Publish(0))
    ensures Step(Step(s, e), Publish(0)) == s.(segs := e.after, index := batch)
  {
    var s1 := s.(segs := e.after, pending := [batch]);
    assert Step(s, e) == s1 by { assert [] + [batch] == [batch]; }
    hide Enabled;
    assert Without([batch], 0) == [];
    assert map[] + batch == batch;
  }

  lemma FirstGrowth(s: State, row: Row) returns (e: Event, batch: Index)
    requires Init(s) && IsWrite(row) && Fits(row) && row.lsn >= 1
    ensures Inv(s) && s.pending == [] && s.index == map[] && s.poll.Idle? && s.applied == 0 && s.slave.last == 0
    ensures e.Grow? && Enabled(s, e) && e.batches == [batch] && Log(e.after) == [row] && row.lsn in batch
  {
    InitInv(s);
    batch := Entries(s.segs[0].name, 0, [row]);
    e := Grow(AppendRows(s.segs, [row]), [row], [batch]);
    assert s.segs[..0] == [] && Log(s.segs) == [];
    AppendRowsGrows(s.segs, [row]);
    EntriesFindAppended(s.segs, [row]);
    assert Size(s.segs[0]) == 0;
    hide Encode, EncodeAll;
    EntriesSound(s.segs[0].name, 0, [row]);
    BatchKeysOne(batch);
    assert [] + [row] == [row];
    assert row.lsn in Lsns([row]) by { assert [row][0].lsn == row.lsn; }
    hide WellFormed, Extends, IndexSound, BatchKeys, Lsns, Inv, AppendRows, Entries, Log;
  }

  /* ---------- The two sides take these steps ---------- */

  // What the master's handler answers, from the index when it looks the LSN up, the listing when it lists and the
  // files when it reads them, is the reply of the machine, whatever happens in between.
  lemma HandleIsThePoll(s: State, listing: State, reading: State, seen: Contents, message: Bytes)
    requires s.poll.Asked? && ReadRequest(s.poll.request).Some?
    requires listing.poll == Step(s, Find).poll
    requires listing.poll.Located? ==>
               reading.poll == Step(listing, List).poll && Enabled(reading, Reply(seen))
    requires Master.Answers(s.index, s.poll.request, Names(listing.segs), seen, message)
    ensures if listing.poll.Located? then Step(reading, Reply(seen)).poll == Replied(message, |MasterLog(listing)|)
            else listing.poll == Replied(message, 0)
  {
    hide ReadRequest, WriteMessage, EncodeAll, ListFrom, SuffixRows, Log, Observed;
  }

  // Whatever the slave's update does, finished, cut short or refused, is a run of the machine.
  lemma GetUpdatesIsARun(s: State, logged: nat, done: nat, after: Replica) returns (events: seq<Event>)
    requires s.poll.Replied? && Took(RepliedRows(s.poll.message), logged, done, s.slave, after)
    ensures Allowed(s, events)
    ensures After(s, events).slave == after && After(s, events).poll.Idle? && After(s, events).segs == s.segs
  {
    var rows := RepliedRows(s.poll.message);
    hide RepliedRows, Run;
    if rows == [] || logged < |rows| {
      events := [if rows == [] then Deliver else if s.slave.wal.None? then Abort else LogFails(logged)];
      UpdateNotApplied(s, logged, done, after, events[0]);
      OneStep(s, events[0]);
    } else {
      var t := Step(s, Deliver);
      assert rows[..|rows|] == rows;
      OneStep(s, Deliver);
      hide Step, Enabled, Allowed, After, Logged;
      var applied, u := ApplyMany(t, done);
      RunsCompose(s, [Deliver], applied);
      var last := UpdateEnds(u, after);
      RunsCompose(s, [Deliver] + applied, [last]);
      events := [Deliver] + applied + [last];
    }
  }

  lemma UpdateNotApplied(s: State, logged: nat, done: nat, after: Replica, e: Event)
    requires s.poll.Replied? && Took(RepliedRows(s.poll.message), logged, done, s.slave, after)
    requires var rows := RepliedRows(s.poll.message);
             rows == [] || logged < |rows|
    requires e == if RepliedRows(s.poll.message) == [] then Deliver
                  else if s.slave.wal.None? then Abort else LogFails(logged)
    ensures Enabled(s, e) && Step(s, e).slave == after && Step(s, e).poll.Idle? && Step(s, e).segs == s.segs
  {
    hide RepliedRows;
    LoggedNothing(s.slave.wal, []);
    assert RepliedRows(s.poll.message)[..done] == [];
  }

  lemma {:induction false} ApplyMany(s: State, k: nat) returns (events: seq<Event>, t: State)
    requires s.poll.Applying? && s.poll.done == 0 && k <= |s.poll.rows| && AllWrites(s.poll.rows[..k])
    ensures Allowed(s, events) && t == After(s, events)
    ensures t == s.(poll := s.poll.(done := k), slave := s.slave.(store := Run(s.slave.store, s.poll.rows[..k])))
  {
    if k == 0 {
      events, t := [], s;
    } else {
      var rows := s.poll.rows;
      assert rows[..k][..k - 1] == rows[..k - 1];
      var before, u := ApplyMany(s, k - 1);
      assert IsWrite(rows[..k][k - 1]);
      t := Step(u, ApplyOne);
      hide Step, Enabled, Allowed, After;
      OneStep(u, ApplyOne);
      RunsCompose(s, before, [ApplyOne]);
      events := before + [ApplyOne];
    }
  }

  // The last LSN moves if and only if everything was applied.
  lemma UpdateEnds(s: State, after: Replica) returns (e: Event)
    requires s.poll.Applying? && 0 < |s.poll.rows| && s.poll.done <= |s.poll.rows|
    requires after.wal == s.slave.wal && after.store == s.slave.store
    requires after.last == if s.poll.done == |s.poll.rows| then s.poll.rows[|s.poll.rows| - 1].lsn else s.slave.last
    ensures Enabled(s, e) && Allowed(s, [e])
    ensures After(s, [e]).slave == after && After(s, [e]).poll.Idle? && After(s, [e]).segs == s.segs
  {
    e := if s.poll.done == |s.poll.rows| then Finish else Abort;
    OneStep(s, e);
  }

  /* ---------- When a slave can move on ---------- */

  // The LSN a slave asks for next is not in the log.
  predicate NextMissing(s: State)
  {
    NextLsn(s.slave.last) == 0 || NextLsn(s.slave.last) !in Lsns(MasterLog(s))
  }

  // Nothing on its way to the slave carries a row.
  ghost predicate Stalled(s: State, slave: Replica)
  {
    && Inv(s) && s.slave == slave && NextMissing(s)
    && (s.poll.Idle? || s.poll.Asked? || (s.poll.Replied? && RepliedRows(s.poll.message) == []))
  }

  lemma NoRowsInAFailure(m: Bytes)
    requires |m| < MAX_PAYLOAD
    ensures RepliedRows(WriteMessage(Failure(m))) == []
  {
    hide ReadMessage, WriteMessage;
    FramingRoundTrip(Failure(m), []);
    assert WriteMessage(Failure(m)) + [] == WriteMessage(Failure(m));
  }

  // The master finds no entry for the missing LSN and says so.
  lemma StalledFind(s: State, slave: Replica)
    requires Stalled(s, slave) && s.poll.Asked?
    ensures var t := Step(s, Find);
            t.slave == slave && t.segs == s.segs && t.poll.Replied? && RepliedRows(t.poll.message) == []
  {
    hide WellFormed, IndexSound, Between, Log, BatchKeys, Lsns, RepliedRows, WriteMessage, ReadRequest, RequestBytes;
    var lsn := NextLsn(slave.last);
    RequestRoundTrip(lsn, []);
    assert s.poll.request + [] == s.poll.request;
    assert lsn in s.index ==> lsn in Lsns(MasterLog(s));
    NoRowsInAFailure(LSN_IS_ZERO);
    NoRowsInAFailure(NO_NEW_LOGS);
  }

  // A log in LSN order that has gone past the missing LSN will never hold it.
  lemma StalledGrow(s: State, e: Event)
    requires Inv(s) && NextMissing(s) && e.Grow? && Enabled(s, e) && s.applied < |MasterLog(s)|
    ensures NextMissing(Step(s, e))
  {
    hide WellFormed, IndexAgrees, Between, Log, IndexSound, BatchKeys, Extends;
    var log, lsn := MasterLog(s), NextLsn(s.slave.last);
    assert log[s.applied].lsn in Lsns(log);
    if lsn != 0 && lsn in Lsns(log + e.rows) {
      var p :| 0 <= p < |log + e.rows| && (log + e.rows)[p].lsn == lsn;
      assert LastLsn(log + e.rows, s.applied) == s.slave.last;
      NextIsAtApplied(log + e.rows, s.applied, p);
    }
  }

  // Every other step leaves log and slave alone.
  lemma StalledElsewhere(s: State, slave: Replica, e: Event)
    requires Stalled(s, slave) && Enabled(s, e) && !e.Restart? && !e.Grow? && !e.Find?
    ensures var t := Step(s, e);
            && t.slave == slave && t.segs == s.segs && t.applied == s.applied
            && (t.poll.Idle? || t.poll.Asked? || (t.poll.Replied? && RepliedRows(t.poll.message) == []))
  {
    hide Inv, Log, Lsns, RepliedRows, NextMissing, Rebuilt, CanReply, RowsRead, RequestBytes;
  }

  lemma StalledStep(s: State, slave: Replica, e: Event)
    requires Stalled(s, slave) && Enabled(s, e) && !e.Restart?
    requires e.Grow? ==> s.applied < |MasterLog(s)|
    ensures Stalled(Step(s, e), slave) && Step(s, e).applied == s.applied
    ensures |MasterLog(s)| <= |MasterLog(Step(s, e))|
    ensures !e.Grow? ==> Step(s, e).segs == s.segs
  {
    hide Inv, NextMissing, RepliedRows, Log;
    StepInv(s, e);
    if e.Grow? {
      StalledGrow(s, e);
      StalledGrown(s, e);
    } else {
      if e.Find? {
        StalledFind(s, slave);
        FindTouches(s);
      } else {
        StalledElsewhere(s, slave, e);
      }
      hide Step, Enabled;
      SameMissing(s, Step(s, e));
    }
  }

  lemma FindTouches(s: State)
    requires s.poll.Asked?
    ensures Step(s, Find).applied == s.applied
  {
  }

  lemma SameMissing(s: State, t: State)
    requires NextMissing(s) && t.segs == s.segs && t.slave == s.slave
    ensures NextMissing(t)
  {
  }

  lemma StalledGrown(s: State, e: Event)
    requires e.Grow? && Enabled(s, e)
    ensures var t := Step(s, e);
            t.slave == s.slave && t.poll == s.poll && t.applied == s.applied && |MasterLog(s)| <= |MasterLog(t)|
  {
    hide WellFormed, Extends, IndexSound, BatchKeys, Lsns, Log, Ordered;
  }

  // Runs in which the slave does not start over.
  predicate NoRestart(events: seq<Event>)
  {
    forall i :: 0 <= i < |events| ==> !events[i].Restart?
  }

  lemma {:induction false} StalledRun(s: State, slave: Replica, events: seq<Event>)
    requires Stalled(s, slave) && Allowed(s, events) && NoRestart(events)
    requires s.applied < |MasterLog(s)| || Quiet(events)
    ensures After(s, events).slave == slave
    decreases |events|
  {
    if events != [] {
      StalledStep(s, slave, events[0]);
      hide Step, Enabled, Inv, Log, NextMissing, RepliedRows;
      StalledRun(Step(s, events[0]), slave, events[1..]);
    }
  }

  // A gap stops a slave for good: once the log has gone past the LSN it asks for, no run without a restart changes it.
  lemma GapStallsForEver(s: State, events: seq<Event>)
    requires Inv(s) && s.poll.Idle? && s.applied < |MasterLog(s)| && NextMissing(s)
    requires Allowed(s, events) && NoRestart(events)
    ensures After(s, events).slave == s.slave
  {
    hide Inv, NextMissing, Log, Allowed, After;
    StalledRun(s, s.slave, events);
  }

  // Exactly when a slave can move on over the log as it is: the next LSN is logged.
  lemma AdvancesExactlyWhen(s: State)
    requires Inv(s) && s.poll.Idle? && |EncodeAll(MasterLog(s)[s.applied..])| < MAX_PAYLOAD
    ensures (exists events :: Allowed(s, events) && Quiet(events) && After(s, events).slave.last != s.slave.last)
            <==> !NextMissing(s)
  {
    hide Inv, Log, Allowed, After, EncodeAll;
    if NextMissing(s) {
      hide NextMissing;
      forall events | Allowed(s, events) && Quiet(events) ensures After(s, events).slave.last == s.slave.last {
        StalledRun(s, s.slave, events);
      }
    } else {
      hide NextMissing;
      var events := Advance(s);
    }
  }

  // Publish the entry if that is still to come, then poll.
  lemma Advance(s: State) returns (events: seq<Event>)
    requires Inv(s) && s.poll.Idle? && |EncodeAll(MasterLog(s)[s.applied..])| < MAX_PAYLOAD && !NextMissing(s)
    ensures Allowed(s, events) && Quiet(events) && After(s, events).slave.last != s.slave.last
  {
    hide Inv, Log, Allowed, After, EncodeAll, Step, Enabled, NextMissing, NextLsn, Quiet, Run;
    var before, t := MakeIndexed(s);
    LastMoves(s);
    var poll := CatchUp(t);
    RunsCompose(s, before, poll);
    QuietConcat(before, poll);
    events := before + poll;
  }

  lemma LastMoves(s: State)
    requires Inv(s) && !NextMissing(s)
    ensures s.applied < |MasterLog(s)| && s.slave.last < MasterLog(s)[|MasterLog(s)| - 1].lsn
  {
    hide WellFormed, IndexAgrees, Between, Log;
    var log, lsn := MasterLog(s), NextLsn(s.slave.last);
    var p :| 0 <= p < |log| && log[p].lsn == lsn;
    NextIsAtApplied(log, s.applied, p);
    InOrder(log, p, |log| - 1);
  }

  lemma MakeIndexed(s: State) returns (events: seq<Event>, t: State)
    requires Inv(s) && s.poll.Idle? && !NextMissing(s)
    ensures Allowed(s, events) && Quiet(events) && t == After(s, events) && Inv(t)
    ensures t.poll.Idle? && t.segs == s.segs && t.slave == s.slave && t.applied == s.applied
    ensures NextLsn(t.slave.last) != 0 && NextLsn(t.slave.last) in t.index
  {
    hide NextLsn, Lsns, Inv, Step, Enabled;
    var lsn := NextLsn(s.slave.last);
    if lsn in s.index {
      events, t := [], s;
    } else {
      var k := InSomeBatch(s, lsn);
      StepInv(s, Publish(k));
      PublishOne(s, k);
      t := Step(s, Publish(k));
      OneStep(s, Publish(k));
      events := [Publish(k)];
    }
  }

  lemma PublishOne(s: State, k: nat)
    requires k < |s.pending|
    ensures var t := Step(s, Publish(k));
            && t.poll == s.poll && t.segs == s.segs && t.slave == s.slave && t.applied == s.applied
            && t.index == s.index + s.pending[k]
  {
  }

  lemma InSomeBatch(s: State, lsn: U64) returns (k: nat)
    requires Inv(s) && lsn in Lsns(MasterLog(s)) && lsn !in s.index
    ensures k < |s.pending| && lsn in s.pending[k] && Enabled(s, Publish(k))
  {
    hide SlaveOk, PollOk, Ordered, WellFormed, IndexSound, Lsns, Log;
    assert lsn in BatchKeys(s.pending);
    k :| 0 <= k < |s.pending| && lsn in s.pending[k].Keys;
  }

  /* ---------- Gaps, and what a restart does about them ---------- */

  // A log can skip an LSN (`WalWorker.DrawnButNeverSent`). Its first row then leaves the slave asking for what never
  // was.
  lemma SkippedFirstLsn(s: State, row: Row) returns (e: Event)
    requires Init(s) && IsWrite(row) && Fits(row) && row.lsn >= 2
    ensures Inv(s) && Enabled(s, e) && Inv(Step(s, e))
    ensures var t := Step(s, e);
            MasterLog(t) == [row] && t.poll.Idle? && t.applied == 0 && NextMissing(t)
  {
    hide Init, Inv, Enabled, Step, Log, Fits, IsWrite;
    var batch;
    e, batch := FirstGrowth(s, row);
    StepInv(s, e);
    GrownTo(s, e);
    assert Lsns([row]) == {row.lsn} by { assert [row][0] == row; }
  }

  lemma GrownTo(s: State, e: Event)
    requires e.Grow? && Enabled(s, e)
    ensures var t := Step(s, e);
            MasterLog(t) == Log(e.after) && t.poll == s.poll && t.applied == s.applied && t.slave == s.slave
  {
    hide WellFormed, Extends, IndexSound, BatchKeys, Lsns, Log, Ordered;
  }

  lemma FirstAsked(s: State)
    requires Inv(s) && s.slave.last == 0
    ensures s.applied == 0 && (NextMissing(s) <==> 1 !in Lsns(MasterLog(s)))
  {
    hide WellFormed, IndexAgrees, Between, Log, Lsns, PollOk;
  }

  lemma StartsAgain(s: State)
    requires Enabled(s, Restart)
    ensures var t := Step(s, Restart);
            t.poll.Idle? && t.applied == 0 && t.slave.last == 0 && t.segs == s.segs && t.slave.wal == s.slave.wal
  {
    hide Run;
  }

  // A slave that starts over asks for LSN 1 again: from there it can move exactly when LSN 1 is logged, whatever gap
  // stopped it before.
  lemma RestartHelpsExactlyWhen(s: State)
    requires Inv(s) && Enabled(s, Restart) && |EncodeAll(MasterLog(s))| < MAX_PAYLOAD
    ensures var t := Step(s, Restart);
            (exists events :: Allowed(t, events) && Quiet(events) && After(t, events).slave.last != 0)
            <==> 1 in Lsns(MasterLog(s))
  {
    hide Inv, Step, Enabled, Log, Lsns, Allowed, After, EncodeAll, NextMissing, Quiet;
    var t := Step(s, Restart);
    StepInv(s, Restart);
    StartsAgain(s);
    FirstAsked(t);
    assert MasterLog(t)[0..] == MasterLog(t);
    AdvancesExactlyWhen(t);
  }

  // Without LSN 1 nothing helps, restarts included: the slave stays at LSN 0 and its own log where it was.
  lemma {:induction false} NeverWithoutTheFirst(s: State, events: seq<Event>)
    requires Stalled(s, s.slave) && s.slave.last == 0 && MasterLog(s) != [] && Allowed(s, events)
    ensures After(s, events).slave.last == 0 && After(s, events).slave.wal == s.slave.wal
    decreases |events|
  {
    if events != [] {
      var e := events[0];
      var t := Step(s, e);
      StalledFromZero(s, e);
      hide Step, Enabled, Stalled, Log;
      NeverWithoutTheFirst(t, events[1..]);
    }
  }

  lemma StalledFromZero(s: State, e: Event)
    requires Stalled(s, s.slave) && s.slave.last == 0 && MasterLog(s) != [] && Enabled(s, e)
    ensures var t := Step(s, e);
            Stalled(t, t.slave) && t.slave.last == 0 && t.slave.wal == s.slave.wal && MasterLog(t) != []
  {
    hide Inv, NextMissing, RepliedRows, Log;
    FirstAsked(s);
    if e.Restart? {
      StepInv(s, e);
      var t := Step(s, e);
      assert t.segs == s.segs && t.slave.last == 0 && t.poll.Idle?;
      hide Step, Enabled;
      FirstAsked(t);
    } else {
      hide Step, Enabled;
      StalledStep(s, s.slave, e);
    }
  }
}
