// What a log means: the map reached by applying its SET and DEL rows in order
// (internal/database/database.go `exec`, internal/database/replication/slave.go `execStorage`).
module Replay {
  import opened Wrappers
  import opened ByteCodec
  import opened WalRecord

  const SET: Byte := 0
  const GET: Byte := 1
  const DEL: Byte := 2

  type Store = map<Bytes, Bytes>

  // The rows that replay without an unknown command or a missing argument.
  predicate IsWrite(r: Row)
  {
    (r.methodId == SET && |r.args| >= 2) || (r.methodId == DEL && |r.args| >= 1)
  }

  // What comes of executing a row. The program does not check the number of arguments: a missing one is a panic.
  datatype Outcome = Applied | UnknownCommand | OutOfRange

  function Verdict(r: Row): (o: Outcome)
    ensures o == Applied <==> IsWrite(r)
  {
    if r.methodId == SET then (if |r.args| >= 2 then Applied else OutOfRange)
    else if r.methodId == DEL then (if |r.args| >= 1 then Applied else OutOfRange)
    else UnknownCommand
  }

  predicate AllWrites(rows: seq<Row>)
  {
    forall i :: 0 <= i < |rows| ==> IsWrite(rows[i])
  }

  function Apply(s: Store, r: Row): (t: Store)
    requires IsWrite(r)
  {
    if r.methodId == SET then s[r.args[0] := r.args[1]] else s - {r.args[0]}
  }

  function Run(s: Store, rows: seq<Row>): (t: Store)
    requires AllWrites(rows)
  {
    if rows == [] then s else Apply(Run(s, rows[..|rows| - 1]), rows[|rows| - 1])
  }

  function Lookup(s: Store, key: Bytes): (v: Option<Bytes>)
  {
    if key in s then Some(s[key]) else None
  }

  predicate Touches(rows: seq<Row>, key: Bytes)
    requires AllWrites(rows)
  {
    exists i :: 0 <= i < |rows| && rows[i].args[0] == key
  }

  /* ---------- By method id, as the bytes in a row say it ---------- */

  // 0 sets its first argument to its second, 2 deletes its first, and no other id changes anything.
  lemma MethodIds(s: Store, r: Row)
    ensures IsWrite(r) <==> (r.methodId == 0 && |r.args| >= 2) || (r.methodId == 2 && |r.args| >= 1)
    ensures r.methodId == 0 && |r.args| >= 2 ==> Apply(s, r) == s[r.args[0] := r.args[1]]
    ensures r.methodId == 2 && |r.args| >= 1 ==> Apply(s, r) == s - {r.args[0]}
    ensures Verdict(r) == UnknownCommand <==> r.methodId != 0 && r.methodId != 2
    ensures ExecVerdict(r) == UnknownCommand <==> r.methodId != 0 && r.methodId != 1 && r.methodId != 2
  {
  }

  // A value set and deleted again is gone, and reading it in between makes no difference.
  lemma SetThenDelete(key: Bytes, value: Bytes)
    ensures var log := [Row(1, 0, [key, value]), Row(2, 1, [key]), Row(3, 2, [key])];
            && Executable(log) && Run(map[], Writes(log)) == map[]
            && Executable(log[..2]) && Run(map[], Writes(log[..2])) == map[key := value]
  {
    var put, gone := Row(1, 0, [key, value]), Row(3, 2, [key]);
    WritesOfThree(put, Row(2, 1, [key]), gone);
    hide Writes, Executable, Run;
    RunOne(map[], put);
    RunConcat(map[], [put], [gone]);
    assert [put] + [gone] == [put, gone];
    RunOne(map[key := value], gone);
    assert map[key := value] - {key} == map[];
  }

  lemma WritesOfThree(put: Row, read: Row, gone: Row)
    requires IsWrite(put) && read.methodId == 1 && |read.args| == 1 && IsWrite(gone)
    ensures var log := [put, read, gone];
            && Executable(log) && Writes(log) == [put, gone]
            && Executable(log[..2]) && Writes(log[..2]) == [put]
  {
    var one, two, three := [put], [put, read], [put, read, gone];
    assert one[..0] == [] && two[..1] == one && three[..2] == two;
    assert Writes([]) == [];
    assert Executable(one) && Writes(one) == one;
    assert Executable(two) && Writes(two) == one;
  }

  lemma RunOne(s: Store, r: Row)
    requires IsWrite(r)
    ensures Run(s, [r]) == Apply(s, r)
  {
    assert [r][..0] == [];
  }

  lemma {:induction false} RunConcat(s: Store, a: seq<Row>, b: seq<Row>)
    requires AllWrites(a) && AllWrites(b)
    ensures Run(s, a + b) == Run(Run(s, a), b)
    decreases |b|
  {
    if b == [] {
      assert a + b == a;
    } else {
      var front := b[..|b| - 1];
      RunConcat(s, a, front);
      assert (a + b)[..|a + b| - 1] == a + front;
    }
  }

  lemma RunNext(s: Store, rows: seq<Row>, m: nat)
    requires AllWrites(rows) && m < |rows|
    ensures Run(s, rows[..m + 1]) == Apply(Run(s, rows[..m]), rows[m])
  {
    assert rows[..m + 1][..m] == rows[..m];
  }

  /* ---------- When two sequences of rows leave the same store ---------- */

  // The last row that touches a key.
  function LastWrite(rows: seq<Row>, key: Bytes): (last: Option<Row>)
    requires AllWrites(rows)
  {
    if rows == [] then None
    else if rows[|rows| - 1].args[0] == key then Some(rows[|rows| - 1])
    else LastWrite(rows[..|rows| - 1], key)
  }

  // The value a key has after it.
  function Effect(last: Option<Row>): (v: Option<Bytes>)
    requires last.Some? ==> IsWrite(last.value)
  {
    if last.Some? && last.value.methodId == SET then Some(last.value.args[1]) else None
  }

  lemma {:induction false} LastWriteDecides(rows: seq<Row>, key: Bytes)
    requires AllWrites(rows)
    ensures LastWrite(rows, key).Some? ==> LastWrite(rows, key).value in rows && IsWrite(LastWrite(rows, key).value)
    ensures Lookup(Run(map[], rows), key) == Effect(LastWrite(rows, key))
  {
    if rows != [] {
      LastWriteDecides(rows[..|rows| - 1], key);
    }
  }

  ghost predicate SameLastWrites(a: seq<Row>, b: seq<Row>)
    requires AllWrites(a) && AllWrites(b)
  {
    forall key :: LastEffect(a, key) == LastEffect(b, key)
  }

  function LastEffect(rows: seq<Row>, key: Bytes): (v: Option<Bytes>)
    requires AllWrites(rows)
  {
    LastWriteDecides(rows, key);
    Effect(LastWrite(rows, key))
  }

  // Two sequences of rows leave the same store exactly when, key by key, their last rows have the same effect.
  lemma SameStoreExactlyWhen(a: seq<Row>, b: seq<Row>)
    requires AllWrites(a) && AllWrites(b)
    ensures Run(map[], a) == Run(map[], b) <==> SameLastWrites(a, b)
  {
    hide Run, LastWrite;
    forall key ensures Lookup(Run(map[], a), key) == LastEffect(a, key) &&
                       Lookup(Run(map[], b), key) == LastEffect(b, key) {
      LastWriteDecides(a, key);
      LastWriteDecides(b, key);
    }
    if SameLastWrites(a, b) {
      forall key ensures Lookup(Run(map[], a), key) == Lookup(Run(map[], b), key) {
        assert LastEffect(a, key) == LastEffect(b, key);
      }
      SameMap(Run(map[], a), Run(map[], b));
    }
  }

  lemma SameMap(a: Store, b: Store)
    requires forall key :: Lookup(a, key) == Lookup(b, key)
    ensures a == b
  {
    assert forall key :: key in a <==> Lookup(a, key).Some?;
    assert forall key :: key in b <==> Lookup(b, key).Some?;
    assert forall key :: key in a ==> Lookup(a, key) == Some(a[key]);
    assert forall key :: key in b ==> Lookup(b, key) == Some(b[key]);
  }

  /* ---------- A restore, which would also execute a GET ---------- */

  function ExecVerdict(r: Row): (o: Outcome)
  {
    if r.methodId == GET then (if |r.args| >= 1 then Applied else OutOfRange) else Verdict(r)
  }

  predicate Executable(rows: seq<Row>)
  {
    forall i :: 0 <= i < |rows| ==> ExecVerdict(rows[i]) == Applied
  }

  lemma ExecutableSplit(a: seq<Row>, b: seq<Row>)
    ensures Executable(a + b) <==> Executable(a) && Executable(b)
  {
    hide ExecVerdict;
    assert forall k :: 0 <= k < |a| ==> (a + b)[k] == a[k];
    assert forall k :: 0 <= k < |b| ==> (a + b)[|a| + k] == b[k];
  }

  // The rows that change the store.
  function Writes(rows: seq<Row>): (w: seq<Row>)
    requires Executable(rows)
    ensures AllWrites(w)
    ensures AllWrites(rows) ==> w == rows
  {
    if rows == [] then []
    else
      var front, last := rows[..|rows| - 1], rows[|rows| - 1];
      if last.methodId == GET then Writes(front) else Writes(front) + [last]
  }

  lemma {:induction false} WritesConcat(a: seq<Row>, b: seq<Row>)
    requires Executable(a) && Executable(b)
    ensures Executable(a + b) && Writes(a + b) == Writes(a) + Writes(b)
    decreases |b|
  {
    ExecutableSplit(a, b);
    if b == [] {
      assert a + b == a && Writes(b) == [];
    } else {
      var front := b[..|b| - 1];
      assert b == front + [b[|b| - 1]];
      ExecutableSplit(front, [b[|b| - 1]]);
      hide Executable, ExecVerdict, AllWrites, IsWrite;
      WritesConcat(a, front);
      assert (a + b)[..|a + b| - 1] == a + front;
    }
  }

  /* ---------- Stores that lag or lead key by key ---------- */

  // `store` holds for `key` what the first `m` rows of `log` leave there.
  predicate HoldsAt(base: Store, log: seq<Row>, store: Store, m: nat, key: Bytes)
    requires AllWrites(log)
  {
    m <= |log| && Lookup(store, key) == Lookup(Run(base, log[..m]), key)
  }

  ghost predicate KeyBetween(base: Store, log: seq<Row>, store: Store, lo: nat, hi: nat, key: Bytes)
    requires AllWrites(log)
  {
    exists m: nat :: lo <= m <= hi && HoldsAt(base, log, store, m, key)
  }

  // Every key holds its value of some moment between the first `lo` and the first `hi` rows of `log`,
  // each key of its own moment. This is what partial and repeated application leaves behind.
  ghost predicate Between(base: Store, log: seq<Row>, store: Store, lo: nat, hi: nat)
    requires AllWrites(log)
  {
    hi <= |log| && forall key :: KeyBetween(base, log, store, lo, hi, key)
  }

  lemma BetweenReached(base: Store, log: seq<Row>, m: nat, lo: nat, hi: nat)
    requires AllWrites(log) && lo <= m <= hi <= |log|
    ensures Between(base, log, Run(base, log[..m]), lo, hi)
  {
    forall key ensures KeyBetween(base, log, Run(base, log[..m]), lo, hi, key) {
      assert HoldsAt(base, log, Run(base, log[..m]), m, key);
    }
  }

  lemma BetweenPoint(base: Store, log: seq<Row>, store: Store, m: nat)
    requires AllWrites(log) && Between(base, log, store, m, m)
    ensures store == Run(base, log[..m])
  {
    var t := Run(base, log[..m]);
    forall key ensures Lookup(store, key) == Lookup(t, key) {
      assert KeyBetween(base, log, store, m, m, key);
    }
    SameMap(store, t);
  }

  // The log only grows, so neither bound needs revisiting when it does.
  lemma BetweenGrows(base: Store, log: seq<Row>, more: seq<Row>, store: Store, lo: nat, hi: nat, hi': nat)
    requires AllWrites(log) && AllWrites(more)
    requires Between(base, log, store, lo, hi) && hi <= hi' <= |log + more|
    ensures Between(base, log + more, store, lo, hi')
  {
    forall key ensures KeyBetween(base, log + more, store, lo, hi', key) {
      assert KeyBetween(base, log, store, lo, hi, key);
      var m: nat :| lo <= m <= hi && HoldsAt(base, log, store, m, key);
      assert (log + more)[..m] == log[..m];
      assert HoldsAt(base, log + more, store, m, key);
    }
  }

  // Applying the row at the lower bound raises that bound, even where a key is already ahead of it.
  lemma ApplyNext(base: Store, log: seq<Row>, store: Store, lo: nat, hi: nat)
    requires AllWrites(log) && Between(base, log, store, lo, hi) && lo < hi
    ensures Between(base, log, Apply(store, log[lo]), lo + 1, hi)
  {
    var store' := Apply(store, log[lo]);
    RunNext(base, log, lo);
    var next := lo + 1;
    forall key ensures KeyBetween(base, log, store', next, hi, key) {
      assert KeyBetween(base, log, store, lo, hi, key);
      var m: nat :| lo <= m <= hi && HoldsAt(base, log, store, m, key);
      if key == log[lo].args[0] || m == lo {
        assert HoldsAt(base, log, store', lo + 1, key);
      } else {
        assert HoldsAt(base, log, store', m, key);
      }
    }
  }

  lemma {:induction false} RunNextRows(base: Store, log: seq<Row>, store: Store, lo: nat, k: nat, hi: nat)
    requires AllWrites(log) && Between(base, log, store, lo, hi) && lo <= k <= hi
    ensures Between(base, log, Run(store, log[lo..k]), k, hi)
    decreases k - lo
  {
    if lo < k {
      RunNextRows(base, log, store, lo, k - 1, hi);
      ApplyNext(base, log, Run(store, log[lo..k - 1]), k - 1, hi);
      assert log[lo..k][..k - 1 - lo] == log[lo..k - 1];
    }
  }

  // Overlap-tolerant replay: re-applying any suffix that starts at or before the point already reached
  // ends where replaying the whole log once does.
  lemma OverlappingReplay(base: Store, log: seq<Row>, j: nat, k: nat)
    requires AllWrites(log) && j <= k <= |log|
    ensures Run(Run(base, log[..k]), log[j..]) == Run(base, log)
  {
    BetweenReached(base, log, k, j, |log|);
    RunNextRows(base, log, Run(base, log[..k]), j, |log|, |log|);
    assert log[j..|log|] == log[j..] && log[..|log|] == log;
    BetweenPoint(base, log, Run(Run(base, log[..k]), log[j..]), |log|);
  }

  lemma ApplyElsewhere(s: Store, r: Row, key: Bytes)
    requires IsWrite(r) && r.args[0] != key
    ensures Lookup(Apply(s, r), key) == Lookup(s, key)
  {
  }

  // A key no row of `log[lo..hi]` touches keeps its value over them.
  lemma {:induction false} UntouchedKeepsValue(base: Store, log: seq<Row>, lo: nat, m: nat, hi: nat, key: Bytes)
    requires AllWrites(log) && lo <= m <= hi <= |log|
    requires forall i :: lo <= i < hi ==> log[i].args[0] != key
    ensures Lookup(Run(base, log[..m]), key) == Lookup(Run(base, log[..lo]), key)
    decreases m
  {
    hide Run, Lookup;
    if lo < m {
      UntouchedKeepsValue(base, log, lo, m - 1, hi, key);
      RunNext(base, log, m - 1);
      ApplyElsewhere(Run(base, log[..m - 1]), log[m - 1], key);
    }
  }

  // So a store that is `Between` agrees exactly with the lower bound wherever nothing later was written.
  lemma AgreesWhereUntouched(base: Store, log: seq<Row>, store: Store, lo: nat, hi: nat, key: Bytes)
    requires AllWrites(log) && Between(base, log, store, lo, hi) && lo <= hi
    requires !Touches(log[lo..hi], key)
    ensures Lookup(store, key) == Lookup(Run(base, log[..lo]), key)
  {
    hide Run, Lookup;
    assert KeyBetween(base, log, store, lo, hi, key);
    var m: nat :| lo <= m <= hi && HoldsAt(base, log, store, m, key);
    assert forall i :: lo <= i < hi ==> log[i] == log[lo..hi][i - lo];
    UntouchedKeepsValue(base, log, lo, m, hi, key);
  }
}
