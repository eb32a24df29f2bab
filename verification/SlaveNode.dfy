// internal/database/replication/slave.go: applying a reply.
module SlaveNode {
  import opened Wrappers
  import opened ByteCodec
  import opened WalRecord
  import opened LogStream
  import opened Replay
  import opened Protocol
  import InMemory

  // What a slave is, between polls: its map, the last LSN it finished, and its own log when it keeps one.
  datatype Replica = Replica(store: Store, last: U64, wal: Option<seq<Row>>)

  // How an update ends.
  datatype End = Done | Refused(why: Outcome) | Cancelled | LogFailed | NoData

  function Logged(wal: Option<seq<Row>>, rows: seq<Row>): (w: Option<seq<Row>>)
  {
    if wal.Some? then Some(wal.value + rows) else None
  }

  lemma LoggedNothing(wal: Option<seq<Row>>, rows: seq<Row>)
    ensures Logged(wal, rows[..0]) == wal
  {
    if wal.Some? {
      assert wal.value + rows[..0] == wal.value;
    }
  }

  // The effect of an update with these rows: some prefix reaches the slave's own log, then, if that is all of them,
  // some prefix the store, and only if that is all of them again does the last LSN move.
  ghost predicate Took(rows: seq<Row>, logged: nat, done: nat, before: Replica, after: Replica)
  {
    && logged <= |rows| && done <= |rows| && AllWrites(rows[..done])
    && (done > 0 ==> logged == |rows|)
    && after.wal == Logged(before.wal, rows[..logged])
    && after.store == Run(before.store, rows[..done])
    && after.last == if 0 < |rows| == done then rows[|rows| - 1].lsn else before.last
  }

  // Why a store takes no more rows: the context is cancelled, or the next row is refused.
  predicate StopsAt(rows: seq<Row>, cancelAt: nat, done: nat, end: End)
    requires done < |rows|
  {
    end == (if done == cancelAt then Cancelled else Refused(Verdict(rows[done]))) &&
    (done == cancelAt || !IsWrite(rows[done]))
  }

  class Slave {
    const st: InMemory.Engine
    var lastLsnWritten: U64
    var wal: Option<seq<Row>>   // its own log, when it keeps one

    ghost predicate Valid()
      reads this, st
    {
      st.Valid()
    }

    ghost function View(): (r: Replica)
      requires Valid()
      reads this, st
    {
      Replica(st.Contents(), lastLsnWritten, wal)
    }

    // A new process starts from LSN 0, whatever its log holds.
    constructor (st: InMemory.Engine, wal: Option<seq<Row>>)
      requires st.Valid()
      ensures Valid() && this.st == st && this.wal == wal && lastLsnWritten == 0
    {
      this.st, this.wal, lastLsnWritten := st, wal, 0;
    }

    // Applies rows in order until one is refused or the context is cancelled, which happens before row `cancelAt`.
    method ExecStorage(rows: seq<Row>, cancelAt: nat) returns (end: End, done: nat)
      requires Valid()
      modifies st
      ensures Valid()
      ensures done <= |rows| && AllWrites(rows[..done])
      ensures st.Contents() == Run(old(st.Contents()), rows[..done])
      ensures end == Done <==> done == |rows|
      ensures done < |rows| ==>
                end == if done == cancelAt then Cancelled else Refused(Verdict(rows[done]))
      ensures done < |rows| ==> done == cancelAt || !IsWrite(rows[done])
      ensures done <= cancelAt
    {
      done := 0;
      while done < |rows|
        invariant Valid() && done <= |rows| && done <= cancelAt && AllWrites(rows[..done])
        invariant st.Contents() == Run(old(st.Contents()), rows[..done])
      {
        if done == cancelAt {
          return Cancelled, done;
        }
        var outcome := st.Exec(rows[done]);
        if outcome != Applied {
          return Refused(outcome), done;
        }
        assert rows[..done + 1][..done] == rows[..done];
        done := done + 1;
      }
      return Done, done;
    }

    // Log first, then store, then move on: the LSN advances only when every row has been applied.
    // `stored` is how many of the rows reach the slave's own log, all of them when its write succeeds. `cancelled` says
    // whether the context is cancelled when the rows arrive, before anything is logged.
    method ProcessRows(rows: seq<Row>, cancelled: bool, stored: nat, cancelAt: nat)
      returns (end: End, logged: nat, done: nat)
      requires Valid() && stored <= |rows|
      modifies this, st
      ensures Valid() && Took(rows, logged, done, old(View()), View())
      ensures end == Done <==> done == |rows|
      ensures cancelled && rows != [] ==> end == Cancelled && View() == old(View())
      ensures logged == if rows == [] || cancelled then 0 else if old(wal).None? then |rows| else stored
      ensures !cancelled && rows != [] ==> (end == LogFailed <==> logged < |rows|)
      ensures !cancelled && done < |rows| == logged ==> StopsAt(rows, cancelAt, done, end)
      ensures end != NoData && done <= cancelAt
    {
      assert rows[..0] == [] && rows[..|rows|] == rows;
      LoggedNothing(wal, rows);
      if |rows| == 0 {
        return Done, 0, 0;
      }
      if cancelled {
        return Cancelled, 0, 0;
      }
      if wal.Some? {
        wal := Some(wal.value + rows[..stored]);
        if stored < |rows| {
          return LogFailed, stored, 0;
        }
      }
      end, done := ExecStorage(rows, cancelAt);
      if end != Done {
        return end, |rows|, done;
      }
      lastLsnWritten := rows[|rows| - 1].lsn;
      return Done, |rows|, |rows|;
    }

    // `getUpdates` once the reply is in: an error, an empty reply and a reply with no whole row change nothing.
    method GetUpdates(message: Bytes, cancelled: bool, stored: nat, cancelAt: nat)
      returns (end: End, logged: nat, done: nat)
      requires Valid()
      modifies this, st
      ensures Valid() && Took(RepliedRows(message), logged, done, old(View()), View())
      ensures end == NoData <==> ReadMessage(message).Err? || ReadMessage(message).value.Failure?
      ensures end != NoData ==> (end == Done <==> done == |RepliedRows(message)|)
      ensures var rows := RepliedRows(message);
              && done <= cancelAt && (rows != [] && cancelled ==> end == Cancelled && View() == old(View()))
              && (rows != [] && !cancelled ==>
                    && logged == (if old(wal).None? || stored > |rows| then |rows| else stored)
                    && (end == LogFailed <==> logged < |rows|)
                    && (done < |rows| == logged ==> StopsAt(rows, cancelAt, done, end)))
      ensures RepliedRows(message) == [] ==> View() == old(View())
    {
      hide ReadMessage, Parse;
      LoggedNothing(wal, []);
      var reply := ReadMessage(message);
      if reply.Err? || reply.value.Failure? {
        return NoData, 0, 0;
      }
      if |reply.value.bytes| == 0 {
        NoBytesNoRows();
        return Done, 0, 0;
      }
      var rows := ReadBytes(reply.value.bytes);
      end, logged, done := ProcessRows(rows, cancelled, if stored <= |rows| then stored else |rows|, cancelAt);
    }
  }

  lemma NoBytesNoRows()
    ensures Parse([]).rows == []
  {
  }
}
