// The log directory at row level: which rows each segment file holds, where an index entry points,
// and where a row has to go. internal/segment/segment_manager.go is proved against this in SegmentManager.dfy.
module Segments {
  import opened Wrappers
  import opened ByteCodec
  import opened WalRecord
  import opened LogStream
  import opened Directory

  datatype Seg = Seg(name: Name, rows: seq<Row>)
  datatype File = File(name: Name, data: Bytes)
  datatype IndexEntry = IndexEntry(file: Name, offset: nat)
  type Index = map<U64, IndexEntry>

  function Size(s: Seg): (n: nat)
  {
    |EncodeAll(s.rows)|
  }

  // The bytes on disk.
  function Render(segs: seq<Seg>): (files: seq<File>)
    ensures |files| == |segs|
    ensures forall i :: 0 <= i < |segs| ==> files[i] == File(segs[i].name, EncodeAll(segs[i].rows))
  {
    seq(|segs|, i requires 0 <= i < |segs| => File(segs[i].name, EncodeAll(segs[i].rows)))
  }

  function Names(segs: seq<Seg>): (names: seq<Name>)
    ensures |names| == |segs|
    ensures forall i :: 0 <= i < |segs| ==> names[i] == segs[i].name
  {
    seq(|segs|, i requires 0 <= i < |segs| => segs[i].name)
  }

  // The one flat log the segments stand for.
  function Log(segs: seq<Seg>): (rows: seq<Row>)
  {
    if segs == [] then [] else Log(segs[..|segs| - 1]) + segs[|segs| - 1].rows
  }

  // Files with distinct names, in listing order.
  predicate Formed(segs: seq<Seg>)
  {
    && |segs| > 0
    && Ascending(Names(segs))
    && (forall i :: 0 <= i < |segs| ==> segs[i].name != [])
  }

  // ... whose rows all read back as what they are.
  predicate WellFormed(segs: seq<Seg>)
  {
    Formed(segs) && (forall i :: 0 <= i < |segs| ==> AllFit(segs[i].rows))
  }

  lemma WellFormedIsFormed(segs: seq<Seg>)
    requires WellFormed(segs)
    ensures Formed(segs)
  {
  }

  /* ---------- Growth ---------- */

  // Files are only appended to, and only the last one; new files come after it.
  predicate Extends(before: seq<Seg>, after: seq<Seg>)
  {
    && 0 < |before| <= |after|
    && (forall i :: 0 <= i < |before| - 1 ==> before[i] == after[i])
    && before[|before| - 1].name == after[|before| - 1].name
    && before[|before| - 1].rows <= after[|before| - 1].rows
  }

  lemma ExtendsTransitive(a: seq<Seg>, b: seq<Seg>, c: seq<Seg>)
    requires Extends(a, b) && Extends(b, c)
    ensures Extends(a, c)
  {
  }

  lemma {:induction false} LogConcat(a: seq<Seg>, b: seq<Seg>)
    ensures Log(a + b) == Log(a) + Log(b)
    decreases |b|
  {
    if b == [] {
      assert a + b == a;
      assert Log(a) + [] == Log(a);
    } else {
      var front, last := b[..|b| - 1], b[|b| - 1];
      LogConcat(a, front);
      assert (a + b)[..|a + b| - 1] == a + front;
      assert Log(a) + (Log(front) + last.rows) == Log(a) + Log(front) + last.rows;
    }
  }

  // The flat log grows at its end.
  lemma ExtendsGrowsLog(before: seq<Seg>, after: seq<Seg>)
    requires Extends(before, after)
    ensures Log(before) <= Log(after[..|before|]) <= Log(after)
  {
    var k := |before|;
    assert after == after[..k] + after[k..];
    LogConcat(after[..k], after[k..]);
    LogOfLast(before, after[..k]);
  }

  lemma LogOfLast(before: seq<Seg>, after: seq<Seg>)
    requires |before| == |after| > 0 && before[..|before| - 1] == after[..|before| - 1]
    requires before[|before| - 1].rows <= after[|before| - 1].rows
    ensures Log(before) <= Log(after)
  {
  }

  lemma {:induction false} LogFits(segs: seq<Seg>)
    ensures AllFit(Log(segs)) <==> forall i :: 0 <= i < |segs| ==> AllFit(segs[i].rows)
  {
    hide Fits;
    if segs != [] {
      var front, last := segs[..|segs| - 1], segs[|segs| - 1];
      LogFits(front);
      AllFitConcat(Log(front), last.rows);
      assert forall i :: 0 <= i < |front| ==> front[i] == segs[i];
    }
  }

  // Growth by rows that fit keeps a readable log readable, and only by those.
  lemma StaysReadable(before: seq<Seg>, after: seq<Seg>, rows: seq<Row>)
    requires Formed(before) && Formed(after) && Log(after) == Log(before) + rows
    ensures WellFormed(after) <==> WellFormed(before) && AllFit(rows)
  {
    hide Formed, AllFit, Log;
    LogFits(before);
    LogFits(after);
    AllFitConcat(Log(before), rows);
  }

  /* ---------- Index entries ---------- */

  // `e` points at row `j` of segment `i`.
  predicate PointsAt(segs: seq<Seg>, e: IndexEntry, i: nat, j: nat)
  {
    && i < |segs| && j < |segs[i].rows|
    && e.file == segs[i].name
    && e.offset == |EncodeAll(segs[i].rows[..j])|
  }

  // Where that row is in the flat log.
  function Position(segs: seq<Seg>, i: nat, j: nat): (p: nat)
    requires i <= |segs|
  {
    |Log(segs[..i])| + j
  }

  lemma PositionInLog(segs: seq<Seg>, i: nat, j: nat)
    requires i < |segs| && j < |segs[i].rows|
    ensures Position(segs, i, j) < |Log(segs)|
    ensures Log(segs)[Position(segs, i, j)] == segs[i].rows[j]
  {
    assert segs == segs[..i + 1] + segs[i + 1..];
    LogConcat(segs[..i + 1], segs[i + 1..]);
    assert segs[..i + 1][..i] == segs[..i];
  }

  lemma PointsAtPersists(before: seq<Seg>, after: seq<Seg>, e: IndexEntry, i: nat, j: nat)
    requires Extends(before, after) && PointsAt(before, e, i, j)
    ensures PointsAt(after, e, i, j) && after[i].rows[j] == before[i].rows[j]
    ensures Position(after, i, j) == Position(before, i, j)
  {
    assert before[i].rows[..j] == after[i].rows[..j];
    assert before[..i] == after[..i];
  }

  // `e` is a right answer for `lsn`.
  ghost predicate Finds(segs: seq<Seg>, lsn: U64, e: IndexEntry)
  {
    exists i: nat, j: nat :: PointsAt(segs, e, i, j) && segs[i].rows[j].lsn == lsn
  }

  lemma FoundAt(segs: seq<Seg>, lsn: U64, e: IndexEntry) returns (i: nat, j: nat)
    requires Finds(segs, lsn, e)
    ensures i < |segs| && j < |segs[i].rows| && PointsAt(segs, e, i, j) && segs[i].rows[j].lsn == lsn
  {
    i, j :| PointsAt(segs, e, i, j) && segs[i].rows[j].lsn == lsn;
  }

  ghost predicate IndexSound(segs: seq<Seg>, index: Index)
  {
    forall lsn :: lsn in index ==> Finds(segs, lsn, index[lsn])
  }

  lemma FindsPersists(before: seq<Seg>, after: seq<Seg>, lsn: U64, e: IndexEntry)
    requires Extends(before, after) && Finds(before, lsn, e)
    ensures Finds(after, lsn, e)
  {
    var i: nat, j: nat :| PointsAt(before, e, i, j) && before[i].rows[j].lsn == lsn;
    PointsAtPersists(before, after, e, i, j);
  }

  lemma IndexSoundPersists(before: seq<Seg>, after: seq<Seg>, index: Index)
    requires Extends(before, after) && IndexSound(before, index)
    ensures IndexSound(after, index)
  {
    forall lsn | lsn in index ensures Finds(after, lsn, index[lsn]) {
      FindsPersists(before, after, lsn, index[lsn]);
    }
  }

  // In bytes: at the file and offset an entry names, a row decodes, and it is the one pointed at.
  lemma EntryDecodes(segs: seq<Seg>, e: IndexEntry, i: nat, j: nat)
    requires WellFormed(segs) && PointsAt(segs, e, i, j)
    ensures var f := Render(segs)[i];
            && f.name == e.file && e.offset <= |f.data|
            && Decode(f.data[e.offset..]) == Some((segs[i].rows[j], |Encode(segs[i].rows[j])|))
            && Parse(f.data[e.offset..]).rows == segs[i].rows[j..]
  {
    hide Decode, Encode;
    var rows := segs[i].rows;
    EncodeAllSplit(rows, j);
    assert Render(segs)[i].data[e.offset..] == EncodeAll(rows[j..]);
    assert AllFit(rows[j..]);
    ParseEncodeAll(rows[j..]);
    DecodeEncode(rows[j], EncodeAll(rows[j..][1..]));
  }

  // A row with this LSN decodes at this offset.
  predicate StartsRow(data: Bytes, offset: nat, lsn: U64)
  {
    && offset <= |data|
    && Decode(data[offset..]).Some? && Decode(data[offset..]).value.0.lsn == lsn
  }

  // Whatever the index says of an LSN, the bytes it names decode to a row with that LSN.
  lemma IndexedBytes(segs: seq<Seg>, index: Index, lsn: U64) returns (i: nat)
    requires WellFormed(segs) && IndexSound(segs, index) && lsn in index
    ensures i < |segs|
    ensures var e, f := index[lsn], Render(segs)[i];
            f.name == e.file && StartsRow(f.data, e.offset, lsn)
  {
    hide Decode, Parse, PointsAt, Finds;
    var j;
    i, j := FoundAt(segs, lsn, index[lsn]);
    EntryDecodes(segs, index[lsn], i, j);
  }

  // The entries of one write: each row's offset in a file, counted from where the write starts.
  // A repeated LSN keeps its last position.
  function Entries(file: Name, start: nat, rows: seq<Row>): (m: Index)
  {
    if rows == [] then map[]
    else
      var front := rows[..|rows| - 1];
      Entries(file, start, front)[rows[|rows| - 1].lsn := IndexEntry(file, start + |EncodeAll(front)|)]
  }

  function Lsns(rows: seq<Row>): (s: set<U64>)
  {
    set i | 0 <= i < |rows| :: rows[i].lsn
  }

  lemma {:induction false} EntriesSound(file: Name, start: nat, rows: seq<Row>)
    ensures Entries(file, start, rows).Keys == Lsns(rows)
    ensures forall lsn :: lsn in Entries(file, start, rows) ==>
              exists j: nat :: j < |rows| && rows[j].lsn == lsn &&
                Entries(file, start, rows)[lsn] == IndexEntry(file, start + |EncodeAll(rows[..j])|)
  {
    hide Encode, EncodeAll;
    if rows != [] {
      var k := |rows| - 1;
      var front := rows[..k];
      var m := Entries(file, start, front);
      EntriesSound(file, start, front);
      forall lsn | lsn in Entries(file, start, rows)
        ensures exists j: nat :: j < |rows| && rows[j].lsn == lsn &&
                  Entries(file, start, rows)[lsn] == IndexEntry(file, start + |EncodeAll(rows[..j])|)
      {
        if lsn == rows[k].lsn {
          assert rows[..k] == front;
        } else {
          var j: nat :| j < |front| && front[j].lsn == lsn &&
                        m[lsn] == IndexEntry(file, start + |EncodeAll(front[..j])|);
          assert front[..j] == rows[..j];
        }
      }
      assert Lsns(rows) == Lsns(front) + {rows[k].lsn};
    }
  }

  lemma {:induction false} EntriesKeepLast(file: Name, start: nat, rows: seq<Row>, j: nat)
    requires j < |rows| && rows[j].lsn !in Lsns(rows[j + 1..])
    ensures var m := Entries(file, start, rows);
            rows[j].lsn in m && m[rows[j].lsn] == IndexEntry(file, start + |EncodeAll(rows[..j])|)
  {
    hide Encode, EncodeAll;
    var k := |rows| - 1;
    if j < k {
      var front, after := rows[..k], rows[j + 1..];
      assert after[k - j - 1] == rows[k] && front[j] == rows[j] && front[..j] == rows[..j];
      assert after[..k - j - 1] == front[j + 1..] && after == after[..k - j - 1] + [rows[k]];
      LsnsConcat(after[..k - j - 1], [rows[k]]);
      EntriesKeepLast(file, start, front, j);
    } else {
      assert rows[..j] == rows[..k];
    }
  }

  // Entries written for rows appended to the last segment find those rows.
  lemma EntriesFindAppended(segs: seq<Seg>, rows: seq<Row>)
    requires |segs| > 0
    ensures IndexSound(AppendRows(segs, rows), Entries(segs[|segs| - 1].name, Size(segs[|segs| - 1]), rows))
  {
    hide Encode, AppendRows, EncodeAll, Entries, Finds, Size;
    var i := |segs| - 1;
    var m := Entries(segs[i].name, Size(segs[i]), rows);
    EntriesSound(segs[i].name, Size(segs[i]), rows);
    forall lsn | lsn in m ensures Finds(AppendRows(segs, rows), lsn, m[lsn]) {
      var j: nat :| j < |rows| && rows[j].lsn == lsn &&
                    m[lsn] == IndexEntry(segs[i].name, Size(segs[i]) + |EncodeAll(rows[..j])|);
      AppendedRowIsFound(segs, rows, j);
    }
  }

  lemma AppendedRowIsFound(segs: seq<Seg>, rows: seq<Row>, j: nat)
    requires |segs| > 0 && j < |rows|
    ensures var last := segs[|segs| - 1];
            Finds(AppendRows(segs, rows), rows[j].lsn, IndexEntry(last.name, Size(last) + |EncodeAll(rows[..j])|))
  {
    hide Encode, AppendRows, EncodeAll, PointsAt;
    AppendedRowIsAt(segs, rows, j);
  }

  lemma AppendedRowIsAt(segs: seq<Seg>, rows: seq<Row>, j: nat)
    requires |segs| > 0 && j < |rows|
    ensures var i := |segs| - 1;
            var e := IndexEntry(segs[i].name, Size(segs[i]) + |EncodeAll(rows[..j])|);
            var after := AppendRows(segs, rows);
            PointsAt(after, e, i, |segs[i].rows| + j) && after[i].rows[|segs[i].rows| + j] == rows[j]
  {
    hide Encode;
    var held := segs[|segs| - 1].rows;
    assert (held + rows)[..|held| + j] == held + rows[..j];
    EncodeAllConcat(held, rows[..j]);
  }

  /* ---------- Published and pending index batches ---------- */

  function BatchKeys(batches: seq<Index>): (s: set<U64>)
  {
    set k, lsn | 0 <= k < |batches| && lsn in batches[k].Keys :: lsn
  }

  // Every entry, published or still pending, finds its LSN, and no logged LSN is missing from them all.
  ghost predicate IndexAgrees(segs: seq<Seg>, index: Index, pending: seq<Index>)
  {
    && IndexSound(segs, index)
    && (forall k :: 0 <= k < |pending| ==> IndexSound(segs, pending[k]))
    && index.Keys + BatchKeys(pending) == Lsns(Log(segs))
  }

  function Without(pending: seq<Index>, k: nat): (r: seq<Index>)
    requires k < |pending|
  {
    pending[..k] + pending[k + 1..]
  }

  // Batches are published in any order.
  lemma PublishAgrees(segs: seq<Seg>, index: Index, pending: seq<Index>, k: nat)
    requires IndexAgrees(segs, index, pending) && k < |pending|
    ensures IndexAgrees(segs, index + pending[k], Without(pending, k))
  {
    hide Finds, Lsns, Log;
    var rest := Without(pending, k);
    forall lsn | lsn in BatchKeys(pending) ensures lsn in BatchKeys(rest) + pending[k].Keys {
      var b :| 0 <= b < |pending| && lsn in pending[b].Keys;
      if b != k {
        assert lsn in rest[if b < k then b else b - 1].Keys;
      }
    }
    forall lsn | lsn in BatchKeys(rest) ensures lsn in BatchKeys(pending) {
      var b :| 0 <= b < |rest| && lsn in rest[b].Keys;
      assert rest[b] == pending[if b < k then b else b + 1];
    }
    assert pending[k].Keys <= BatchKeys(pending);
    assert (index + pending[k]).Keys == index.Keys + pending[k].Keys;
    forall b | 0 <= b < |rest| ensures IndexSound(segs, rest[b]) {
      assert rest[b] == pending[if b < k then b else b + 1];
    }
  }

  // Once nothing is pending, every logged LSN has an entry and every entry is right.
  lemma AllPublished(segs: seq<Seg>, index: Index)
    requires IndexAgrees(segs, index, [])
    ensures index.Keys == Lsns(Log(segs)) && IndexSound(segs, index)
    ensures DistinctLsns(Log(segs)) ==> index == Rebuilt(segs)
  {
    assert BatchKeys([]) == {};
    if DistinctLsns(Log(segs)) {
      RebuiltIsTheIndex(segs, index);
    }
  }

  // Files that grow by rows whose own batches are added keep the agreement.
  lemma GrowAgrees(segs: seq<Seg>, index: Index, pending: seq<Index>, after: seq<Seg>, rows: seq<Row>, more: seq<Index>)
    requires IndexAgrees(segs, index, pending) && Extends(segs, after) && Log(after) == Log(segs) + rows
    requires forall k :: 0 <= k < |more| ==> IndexSound(after, more[k])
    requires BatchKeys(more) == Lsns(rows)
    ensures IndexAgrees(after, index, pending + more)
  {
    hide Finds, Log;
    IndexSoundPersists(segs, after, index);
    forall k | 0 <= k < |pending| ensures IndexSound(after, pending[k]) {
      IndexSoundPersists(segs, after, pending[k]);
    }
    LsnsConcat(Log(segs), rows);
    BatchKeysConcat(pending, more);
  }

  lemma BatchKeysConcat(a: seq<Index>, b: seq<Index>)
    ensures BatchKeys(a + b) == BatchKeys(a) + BatchKeys(b)
  {
    forall lsn | lsn in BatchKeys(a) + BatchKeys(b) ensures lsn in BatchKeys(a + b) {
      if lsn in BatchKeys(a) {
        var k :| 0 <= k < |a| && lsn in a[k].Keys;
        assert lsn in (a + b)[k].Keys;
      } else {
        var k :| 0 <= k < |b| && lsn in b[k].Keys;
        assert lsn in (a + b)[|a| + k].Keys;
      }
    }
  }

  lemma AppendAgrees(segs: seq<Seg>, index: Index, pending: seq<Index>, rows: seq<Row>)
    requires Formed(segs) && IndexAgrees(segs, index, pending)
    ensures var last := segs[|segs| - 1];
            IndexAgrees(AppendRows(segs, rows), index, pending + [Entries(last.name, Size(last), rows)])
  {
    hide Finds, Log, Formed, Entries;
    assert |segs| > 0 by { assert Formed(segs); FormNotEmpty(segs); }
    var last := segs[|segs| - 1];
    AppendRowsGrows(segs, rows);
    EntriesFindAppended(segs, rows);
    EntriesSound(last.name, Size(last), rows);
    BatchKeysOne(Entries(last.name, Size(last), rows));
    GrowAgrees(segs, index, pending, AppendRows(segs, rows), rows, [Entries(last.name, Size(last), rows)]);
  }

  lemma BatchKeysOne(m: Index)
    ensures BatchKeys([m]) == m.Keys
  {
    assert forall lsn :: lsn in m.Keys ==> lsn in [m][0].Keys;
  }

  lemma FormNotEmpty(segs: seq<Seg>)
    requires Formed(segs)
    ensures |segs| > 0
  {
  }

  lemma RotateAgrees(segs: seq<Seg>, index: Index, pending: seq<Index>, name: Name)
    requires Formed(segs) && name != [] && Less(segs[|segs| - 1].name, name)
    requires IndexAgrees(segs, index, pending)
    ensures IndexAgrees(segs + [Seg(name, [])], index, pending)
  {
    RotateGrows(segs, name);
    hide Finds, Log, Formed;
    assert Log(segs) + [] == Log(segs);
    assert BatchKeys([]) == {} == Lsns([]);
    GrowAgrees(segs, index, pending, segs + [Seg(name, [])], [], []);
    assert pending + [] == pending;
  }

  /* ---------- The index rebuilt from the files ---------- */

  // `restoreIndex` run over every file in order.
  function Rebuilt(segs: seq<Seg>): (m: Index)
  {
    if segs == [] then map[]
    else Rebuilt(segs[..|segs| - 1]) + Entries(segs[|segs| - 1].name, 0, segs[|segs| - 1].rows)
  }

  lemma {:induction false} RebuiltSound(segs: seq<Seg>)
    ensures IndexSound(segs, Rebuilt(segs))
    ensures Rebuilt(segs).Keys == Lsns(Log(segs))
  {
    if segs != [] {
      var i := |segs| - 1;
      var front, last := segs[..i], segs[i];
      var m := Entries(last.name, 0, last.rows);
      RebuiltSound(front);
      EntriesSound(last.name, 0, last.rows);
      forall lsn | lsn in Rebuilt(segs) ensures Finds(segs, lsn, Rebuilt(segs)[lsn]) {
        if lsn in m {
          var j: nat :| j < |last.rows| && last.rows[j].lsn == lsn &&
                        m[lsn] == IndexEntry(last.name, 0 + |EncodeAll(last.rows[..j])|);
          assert PointsAt(segs, m[lsn], i, j);
        } else {
          FindsInFront(segs, lsn, Rebuilt(front)[lsn]);
        }
      }
      LsnsConcat(Log(front), last.rows);
    }
  }

  // Of several rows with one LSN, as a slave's own log may hold, the last one is the one found.
  lemma {:induction false} RebuiltKeepsLast(segs: seq<Seg>, i: nat, j: nat)
    requires i < |segs| && j < |segs[i].rows|
    requires var lsn := segs[i].rows[j].lsn;
             lsn !in Lsns(segs[i].rows[j + 1..]) && lsn !in Lsns(Log(segs[i + 1..]))
    ensures var lsn := segs[i].rows[j].lsn;
            lsn in Rebuilt(segs) && PointsAt(segs, Rebuilt(segs)[lsn], i, j)
    decreases |segs|
  {
    hide Encode, EncodeAll, Entries;
    var k, lsn := |segs| - 1, segs[i].rows[j].lsn;
    var front, last := segs[..k], segs[k];
    EntriesSound(last.name, 0, last.rows);
    if i == k {
      EntriesKeepLast(last.name, 0, last.rows, j);
    } else {
      var after := segs[i + 1..];
      assert after[..k - i - 1] == front[i + 1..] && after[k - i - 1] == last;
      LsnsConcat(Log(front[i + 1..]), last.rows);
      assert front[i] == segs[i];
      RebuiltKeepsLast(front, i, j);
    }
  }

  // After a restart nothing is pending and the index agrees with the files again.
  lemma RebuiltAgrees(segs: seq<Seg>)
    ensures IndexAgrees(segs, Rebuilt(segs), [])
  {
    RebuiltSound(segs);
    hide Rebuilt, IndexSound, Log, Lsns;
    assert BatchKeys([]) == {};
  }

  lemma FindsInFront(segs: seq<Seg>, lsn: U64, e: IndexEntry)
    requires |segs| > 0 && Finds(segs[..|segs| - 1], lsn, e)
    ensures Finds(segs, lsn, e)
  {
    var front := segs[..|segs| - 1];
    var i: nat, j: nat :| PointsAt(front, e, i, j) && front[i].rows[j].lsn == lsn;
    assert PointsAt(segs, e, i, j);
  }

  lemma LsnsConcat(a: seq<Row>, b: seq<Row>)
    ensures Lsns(a + b) == Lsns(a) + Lsns(b)
  {
    forall lsn | lsn in Lsns(a) + Lsns(b) ensures lsn in Lsns(a + b) {
      if lsn in Lsns(a) {
        var i :| 0 <= i < |a| && a[i].lsn == lsn;
        assert (a + b)[i].lsn == lsn;
      } else {
        var i :| 0 <= i < |b| && b[i].lsn == lsn;
        assert (a + b)[|a| + i].lsn == lsn;
      }
    }
  }

  // With distinct LSNs there is only one right answer for each.
  lemma FindsUnique(segs: seq<Seg>, lsn: U64, e: IndexEntry, e': IndexEntry)
    requires DistinctLsns(Log(segs)) && Finds(segs, lsn, e) && Finds(segs, lsn, e')
    ensures e == e'
  {
    var i: nat, j: nat :| PointsAt(segs, e, i, j) && segs[i].rows[j].lsn == lsn;
    var i': nat, j': nat :| PointsAt(segs, e', i', j') && segs[i'].rows[j'].lsn == lsn;
    PositionInLog(segs, i, j);
    PositionInLog(segs, i', j');
    assert Position(segs, i, j) == Position(segs, i', j');
    if i < i' {
      PositionsAscend(segs, i, j, i');
    } else if i' < i {
      PositionsAscend(segs, i', j', i);
    }
  }

  lemma PositionsAscend(segs: seq<Seg>, i: nat, j: nat, i': nat)
    requires i < i' <= |segs| && j < |segs[i].rows|
    ensures Position(segs, i, j) < Position(segs, i', 0)
  {
    PositionInLog(segs[..i'], i, j);
    assert segs[..i'][..i] == segs[..i];
  }

  // Restart rebuilds the index exactly: a sound index that misses no logged LSN is the rebuilt one.
  lemma RebuiltIsTheIndex(segs: seq<Seg>, index: Index)
    requires DistinctLsns(Log(segs)) && IndexSound(segs, index) && index.Keys == Lsns(Log(segs))
    ensures index == Rebuilt(segs)
  {
    hide Encode, EncodeAll, PointsAt, Position;
    RebuiltSound(segs);
    hide Rebuilt;
    forall lsn | lsn in index ensures index[lsn] == Rebuilt(segs)[lsn] {
      FindsUnique(segs, lsn, index[lsn], Rebuilt(segs)[lsn]);
    }
  }

  /* ---------- Where rows go ---------- */

  function AppendRows(segs: seq<Seg>, rows: seq<Row>): (r: seq<Seg>)
    requires |segs| > 0
    ensures |r| == |segs|
  {
    var k := |segs| - 1;
    segs[k := Seg(segs[k].name, segs[k].rows + rows)]
  }

  // Row by row: into the last segment if it still fits there, into a fresh one otherwise.
  function Place(segs: seq<Seg>, max: nat, rows: seq<Row>, names: seq<Name>): (r: seq<Seg>)
    requires |segs| > 0 && |names| >= |rows|
    ensures |r| >= |segs|
    decreases |rows|
  {
    if rows == [] then segs
    else if Size(segs[|segs| - 1]) + |Encode(rows[0])| <= max then
      Place(AppendRows(segs, [rows[0]]), max, rows[1..], names)
    else
      Place(segs + [Seg(names[0], [rows[0]])], max, rows[1..], names[1..])
  }

  // What the clock is trusted for: new names, each after all earlier ones.
  predicate FreshNames(segs: seq<Seg>, names: seq<Name>)
    requires |segs| > 0
  {
    Ascending([segs[|segs| - 1].name] + names)
  }

  // Names handed out in order: what placement does not use is still fresh afterwards.
  lemma {:induction false} PlaceUses(segs: seq<Seg>, max: nat, rows: seq<Row>, names: seq<Name>)
    requires |segs| > 0 && |names| >= |rows| && FreshNames(segs, names)
    ensures var used := |Place(segs, max, rows, names)| - |segs|;
            used <= |rows| && FreshNames(Place(segs, max, rows, names), names[used..])
    decreases |rows|
  {
    hide Less, Encode, EncodeAll;
    if rows == [] {
      assert names[0..] == names;
    } else if Size(segs[|segs| - 1]) + |Encode(rows[0])| <= max {
      PlaceUses(AppendRows(segs, [rows[0]]), max, rows[1..], names);
    } else {
      var all := [segs[|segs| - 1].name] + names;
      assert [names[0]] + names[1..] == all[1..];
      PlaceUses(segs + [Seg(names[0], [rows[0]])], max, rows[1..], names[1..]);
      var used := |Place(segs, max, rows, names)| - |segs|;
      assert names[1..][used - 1..] == names[used..];
    }
  }

  lemma AppendRowsGrows(segs: seq<Seg>, rows: seq<Row>)
    requires Formed(segs)
    ensures var after := AppendRows(segs, rows);
            && Formed(after) && Extends(segs, after)
            && Log(after) == Log(segs) + rows
            && Size(after[|segs| - 1]) == Size(segs[|segs| - 1]) + |EncodeAll(rows)|
  {
    AppendLog(segs, rows);
    hide Less, Ascending, Names, Log, EncodeAll;
    var after, k := AppendRows(segs, rows), |segs| - 1;
    assert Names(after) == Names(segs);
    EncodeAllConcat(segs[k].rows, rows);
  }

  lemma AppendLog(segs: seq<Seg>, rows: seq<Row>)
    requires |segs| > 0
    ensures Log(AppendRows(segs, rows)) == Log(segs) + rows
  {
    var k := |segs| - 1;
    assert AppendRows(segs, rows)[..k] == segs[..k];
    assert Log(segs[..k]) + (segs[k].rows + rows) == Log(segs) + rows;
  }

  lemma RotateKeepsForm(segs: seq<Seg>, name: Name)
    requires Formed(segs) && name != [] && Less(segs[|segs| - 1].name, name)
    ensures Formed(segs + [Seg(name, [])])
  {
    hide Less, Ascending, Names;
    var after := segs + [Seg(name, [])];
    AscendingAppend(Names(segs), name);
    assert Names(after) == Names(segs) + [name];
  }

  lemma RotateGrows(segs: seq<Seg>, name: Name)
    requires Formed(segs) && name != [] && Less(segs[|segs| - 1].name, name)
    ensures var after := segs + [Seg(name, [])];
            Formed(after) && Extends(segs, after) && Log(after) == Log(segs)
  {
    assert |segs| > 0;
    hide Formed;
    RotateKeepsForm(segs, name);
    assert (segs + [Seg(name, [])])[..|segs|] == segs;
    assert Log(segs) + [] == Log(segs);
  }

  // Conservation: placing rows appends exactly them, in order, to the flat log, whatever the splits.
  // A log that could be read back still can exactly when the new rows fit.
  lemma PlaceConserves(segs: seq<Seg>, max: nat, rows: seq<Row>, names: seq<Name>)
    requires Formed(segs) && |names| >= |rows| && FreshNames(segs, names)
    ensures var after := Place(segs, max, rows, names);
            && Formed(after) && Extends(segs, after)
            && Log(after) == Log(segs) + rows
            && (WellFormed(after) <==> WellFormed(segs) && AllFit(rows))
  {
    hide Place, WellFormed, FreshNames, Log, Extends, AllFit;
    PlaceGrows(segs, max, rows, names);
    StaysReadable(segs, Place(segs, max, rows, names), rows);
  }

  lemma {:induction false} PlaceGrows(segs: seq<Seg>, max: nat, rows: seq<Row>, names: seq<Name>)
    requires Formed(segs) && |names| >= |rows| && FreshNames(segs, names)
    ensures var after := Place(segs, max, rows, names);
            && Formed(after) && Extends(segs, after)
            && Log(after) == Log(segs) + rows
    decreases |rows|
  {
    if rows == [] {
      assert Log(segs) + [] == Log(segs);
    } else {
      var r, rest, k := rows[0], rows[1..], |segs| - 1;
      assert Log(segs) + [r] + rest == Log(segs) + rows;
      if Size(segs[k]) + |Encode(r)| <= max {
        var next := AppendRows(segs, [r]);
        AppendRowsGrows(segs, [r]);
        PlaceGrows(next, max, rest, names);
        ExtendsTransitive(segs, next, Place(next, max, rest, names));
      } else {
        var next := segs + [Seg(names[0], [r])];
        RotateThenAppend(segs, names, r);
        PlaceGrows(next, max, rest, names[1..]);
        ExtendsTransitive(segs, next, Place(next, max, rest, names[1..]));
      }
    }
  }

  lemma RotateThenAppend(segs: seq<Seg>, names: seq<Name>, r: Row)
    requires Formed(segs) && |names| > 0 && FreshNames(segs, names)
    ensures var next := segs + [Seg(names[0], [r])];
            && Formed(next) && Extends(segs, next)
            && Log(next) == Log(segs) + [r] && FreshNames(next, names[1..])
  {
    var rotated, next := segs + [Seg(names[0], [])], segs + [Seg(names[0], [r])];
    var all := [segs[|segs| - 1].name] + names;
    assert Less(all[0], all[1]);
    RotateGrows(segs, names[0]);
    AppendRowsGrows(rotated, [r]);
    assert [] + [r] == [r];
    assert AppendRows(rotated, [r]) == next;
    ExtendsTransitive(segs, rotated, next);
    assert [names[0]] + names[1..] == all[1..];
  }

  /* ---------- Greedy rotation bounds ---------- */

  // No segment outgrows the limit unless it holds a single oversized row,
  // and no segment was started while its first row still fitted the one before.
  predicate Greedy(segs: seq<Seg>, max: nat)
  {
    && (forall i :: 0 <= i < |segs| ==> Size(segs[i]) <= max || |segs[i].rows| == 1)
    && (forall i :: 0 < i < |segs| ==>
          segs[i].rows != [] && Size(segs[i - 1]) + |Encode(segs[i].rows[0])| > max)
  }

  lemma {:induction false} PlaceStaysGreedy(segs: seq<Seg>, max: nat, rows: seq<Row>, names: seq<Name>)
    requires |segs| > 0 && |names| >= |rows| && Greedy(segs, max)
    ensures Greedy(Place(segs, max, rows, names), max)
    decreases |rows|
  {
    hide Encode;
    if rows != [] {
      var r, rest, k := rows[0], rows[1..], |segs| - 1;
      EncodeAllOne(r);
      if Size(segs[k]) + |Encode(r)| <= max {
        var next := AppendRows(segs, [r]);
        EncodeAllConcat(segs[k].rows, [r]);
        if k > 0 {
          assert next[k].rows[0] == segs[k].rows[0];
        }
        PlaceStaysGreedy(next, max, rest, names);
      } else {
        PlaceStaysGreedy(segs + [Seg(names[0], [r])], max, rest, names[1..]);
      }
    }
  }

  function TotalSize(segs: seq<Seg>): (n: nat)
  {
    if segs == [] then 0 else TotalSize(segs[..|segs| - 1]) + Size(segs[|segs| - 1])
  }

  lemma {:induction false} TotalSizeIsLogSize(segs: seq<Seg>)
    ensures TotalSize(segs) == |EncodeAll(Log(segs))|
  {
    if segs != [] {
      TotalSizeIsLogSize(segs[..|segs| - 1]);
      EncodeAllConcat(Log(segs[..|segs| - 1]), segs[|segs| - 1].rows);
    }
  }

  // Two neighbouring segments always hold more than one segment's worth of bytes.
  lemma {:induction false} GreedyPairs(segs: seq<Seg>, max: nat)
    requires Greedy(segs, max)
    ensures TotalSize(segs) >= |segs| / 2 * (max + 1)
    decreases |segs|
  {
    hide Encode;
    if |segs| >= 2 {
      var k := |segs|;
      GreedyPairs(segs[..k - 2], max);
      assert segs[..k - 1][..k - 2] == segs[..k - 2];
      FirstRowWithin(segs[k - 1]);
      OnePairMore(k, max + 1);
    }
  }

  lemma FirstRowWithin(s: Seg)
    requires s.rows != []
    ensures |Encode(s.rows[0])| <= Size(s)
  {
    hide Encode;
    EncodeAllSplit(s.rows, 1);
    assert s.rows[..1] == [s.rows[0]];
    EncodeAllOne(s.rows[0]);
  }

  lemma OnePairMore(k: nat, unit: nat)
    requires k >= 2
    ensures k / 2 * unit == (k - 2) / 2 * unit + unit
  {
    assert k / 2 == (k - 2) / 2 + 1;
  }

  lemma SegmentCountBound(segs: seq<Seg>, max: nat)
    requires Greedy(segs, max) && |segs| >= 2
    ensures |segs| / 2 * max < |EncodeAll(Log(segs))|
  {
    GreedyPairs(segs, max);
    TotalSizeIsLogSize(segs);
    StrictHalf(|segs| / 2, max);
  }

  lemma StrictHalf(h: nat, max: nat)
    requires h >= 1
    ensures h * max < h * (max + 1)
  {
  }

  /* ---------- Any sequence of writes ---------- */

  datatype WriteCall = WriteCall(rows: seq<Row>, names: seq<Name>)

  // Error-free calls, with the clock naming new files in order.
  predicate CallsAllowed(segs: seq<Seg>, max: nat, calls: seq<WriteCall>)
    requires |segs| > 0
    decreases |calls|
  {
    calls == [] ||
    (var c := calls[0];
     && Encodable(c.rows) && |c.names| >= |c.rows| && FreshNames(segs, c.names)
     && CallsAllowed(Place(segs, max, c.rows, c.names), max, calls[1..]))
  }

  function AfterCalls(segs: seq<Seg>, max: nat, calls: seq<WriteCall>): (r: seq<Seg>)
    requires |segs| > 0 && CallsAllowed(segs, max, calls)
    decreases |calls|
  {
    if calls == [] then segs
    else AfterCalls(Place(segs, max, calls[0].rows, calls[0].names), max, calls[1..])
  }

  function RowsWritten(calls: seq<WriteCall>): (rows: seq<Row>)
  {
    if calls == [] then [] else calls[0].rows + RowsWritten(calls[1..])
  }

  function DiskBytes(files: seq<File>): (s: Bytes)
  {
    if files == [] then [] else DiskBytes(files[..|files| - 1]) + files[|files| - 1].data
  }

  lemma {:induction false} DiskHoldsTheLog(segs: seq<Seg>)
    ensures DiskBytes(Render(segs)) == EncodeAll(Log(segs))
  {
    hide Encode;
    if segs != [] {
      var k := |segs| - 1;
      DiskHoldsTheLog(segs[..k]);
      assert Render(segs)[..k] == Render(segs[..k]);
      EncodeAllConcat(Log(segs[..k]), segs[k].rows);
    }
  }

  lemma {:induction false} CallsConserve(segs: seq<Seg>, max: nat, calls: seq<WriteCall>)
    requires Formed(segs) && Greedy(segs, max) && CallsAllowed(segs, max, calls)
    ensures var after := AfterCalls(segs, max, calls);
            Formed(after) && Greedy(after, max) && Log(after) == Log(segs) + RowsWritten(calls)
    decreases |calls|
  {
    hide Place, Greedy, Formed, WellFormed, FreshNames;
    if calls == [] {
      assert Log(segs) + [] == Log(segs);
    } else {
      var c := calls[0];
      PlaceConserves(segs, max, c.rows, c.names);
      PlaceStaysGreedy(segs, max, c.rows, c.names);
      CallsConserve(Place(segs, max, c.rows, c.names), max, calls[1..]);
      assert Log(segs) + c.rows + RowsWritten(calls[1..]) == Log(segs) + RowsWritten(calls);
    }
  }

  // From an empty directory: the files, concatenated in order, are the encodings of all rows written, in order,
  // each once; every file holds whole rows; and k >= 2 files hold more than floor(k/2) * max bytes.
  lemma WritesFromEmpty(name: Name, max: nat, calls: seq<WriteCall>)
    requires name != [] && CallsAllowed([Seg(name, [])], max, calls)
    ensures var after := AfterCalls([Seg(name, [])], max, calls);
            && Log(after) == RowsWritten(calls)
            && DiskBytes(Render(after)) == EncodeAll(RowsWritten(calls))
            && Greedy(after, max)
            && (|after| >= 2 ==> |after| / 2 * max < |DiskBytes(Render(after))|)
  {
    hide Place, FreshNames, CallsAllowed;
    var segs := [Seg(name, [])];
    assert segs[..0] == [] && Log(segs) == [];
    CallsConserve(segs, max, calls);
    var after := AfterCalls(segs, max, calls);
    assert [] + RowsWritten(calls) == RowsWritten(calls);
    DiskHoldsTheLog(after);
    if |after| >= 2 {
      SegmentCountBound(after, max);
    }
  }
}
