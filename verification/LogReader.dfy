// internal/database/logs/log_reader.go: reading the log back from the directory, from an index entry on
// (`ReadFrom`) and as a whole (`RestoreSystemStream`, `restoreIndex`).
module LogReader {
  import opened Wrappers
  import opened ByteCodec
  import opened WalRecord
  import opened LogStream
  import opened Directory
  import opened Segments

  // What a reader finds in each file at the moment it reads it.
  type Contents = map<Name, Bytes>

  datatype ReadFailure = FileMissing

  /* ---------- Reading a suffix ---------- */

  // Seeking beyond the end leaves nothing to read.
  function From(data: Bytes, offset: nat): (r: Bytes)
  {
    if offset <= |data| then data[offset..] else []
  }

  function RowsOf(names: seq<Name>, seen: Contents): (rows: seq<Row>)
    requires forall i :: 0 <= i < |names| ==> names[i] in seen
  {
    if names == [] then [] else Parse(seen[names[0]]).rows + RowsOf(names[1..], seen)
  }

  // The first file from `offset`, the others whole.
  function SuffixRows(names: seq<Name>, seen: Contents, offset: nat): (rows: seq<Row>)
    requires forall i :: 0 <= i < |names| ==> names[i] in seen
  {
    if names == [] then [] else Parse(From(seen[names[0]], offset)).rows + RowsOf(names[1..], seen)
  }

  method ReadFrom(listing: seq<Name>, seen: Contents, target: Name, firstOffset: nat)
    returns (res: Result<seq<Row>, ReadFailure>)
    requires Ascending(listing)
    ensures var names := ListFrom(listing, target);
            && (res.Ok? <==> forall i :: 0 <= i < |names| ==> names[i] in seen)
            && (res.Ok? ==> res.value == SuffixRows(names, seen, firstOffset))
  {
    hide Parse, ListFrom, SuffixRows;
    var names := ReadDirsFrom(listing, target);
    var results: seq<Row> := [];
    SuffixRowsNone(seen, firstOffset);
    for i := 0 to |names|
      invariant forall k :: 0 <= k < i ==> names[k] in seen
      invariant results == SuffixRows(names[..i], seen, firstOffset)
    {
      var offset := if i == 0 then firstOffset else 0;
      if names[i] !in seen {
        return Err(FileMissing);
      }
      var rows := ReadBytes(From(seen[names[i]], offset));
      SuffixRowsSnoc(names[..i + 1], seen, firstOffset);
      assert names[..i + 1][..i] == names[..i];
      results := results + rows;
    }
    assert names[..|names|] == names;
    return Ok(results);
  }

  lemma SuffixRowsNone(seen: Contents, offset: nat)
    ensures SuffixRows([], seen, offset) == []
  {
  }

  lemma WholeFile(data: Bytes)
    ensures From(data, 0) == data
  {
  }

  lemma SuffixRowsSnoc(names: seq<Name>, seen: Contents, offset: nat)
    requires |names| > 0 && forall i :: 0 <= i < |names| ==> names[i] in seen
    ensures var k := |names| - 1;
            SuffixRows(names, seen, offset) ==
            SuffixRows(names[..k], seen, offset) + Parse(From(seen[names[k]], if k == 0 then offset else 0)).rows
  {
    hide Parse, From;
    var k := |names| - 1;
    if k > 0 {
      hide RowsOf;
      RowsOfSnoc(names[1..], seen);
      assert names[1..][..k - 1] == names[..k][1..];
      assert names[1..][k - 1] == names[k];
      assert forall i :: 0 <= i < k ==> names[..k][i] == names[i];
      WholeFile(seen[names[k]]);
    }
  }

  lemma {:induction false} RowsOfSnoc(names: seq<Name>, seen: Contents)
    requires |names| > 0 && forall i :: 0 <= i < |names| ==> names[i] in seen
    ensures var k := |names| - 1;
            RowsOf(names, seen) == RowsOf(names[..k], seen) + Parse(seen[names[k]]).rows
  {
    hide Parse;
    var k := |names| - 1;
    if k > 0 {
      RowsOfSnoc(names[1..], seen);
      assert names[1..][..k - 1] == names[..k][1..];
    }
  }

  /* ---------- A suffix read while the log grows ---------- */

  // The directory was listed when it held `listed`; by the time its files have been read it holds `now`.
  // Closed files do not change; the last listed one is seen as any byte prefix of what it became.
  ghost predicate Observed(listed: seq<Seg>, now: seq<Seg>, seen: Contents)
    requires 0 < |listed| <= |now|
  {
    var k := |listed| - 1;
    && (forall i :: 0 <= i <= k ==> listed[i].name in seen)
    && (forall i :: 0 <= i < k ==> seen[listed[i].name] == EncodeAll(listed[i].rows))
    && EncodeAll(listed[k].rows) <= seen[listed[k].name] <= EncodeAll(now[k].rows)
  }

  // Every file parses to the rows of `segs`.
  predicate ParsesTo(segs: seq<Seg>, seen: Contents)
  {
    forall i :: 0 <= i < |segs| ==> segs[i].name in seen && Parse(seen[segs[i].name]).rows == segs[i].rows
  }

  lemma LogCons(segs: seq<Seg>)
    requires segs != []
    ensures Log(segs) == segs[0].rows + Log(segs[1..])
  {
    assert segs == segs[..1] + segs[1..];
    LogConcat(segs[..1], segs[1..]);
    assert segs[..1][..0] == [];
  }

  lemma {:induction false} RowsOfSegments(segs: seq<Seg>, seen: Contents, a: nat)
    requires ParsesTo(segs, seen) && a <= |segs|
    ensures RowsOf(Names(segs)[a..], seen) == Log(segs[a..])
    decreases |segs| - a
  {
    hide Parse;
    if a < |segs| {
      RowsOfSegments(segs, seen, a + 1);
      LogCons(segs[a..]);
      assert segs[a..][1..] == segs[a + 1..];
      assert Names(segs)[a..][1..] == Names(segs)[a + 1..];
    }
  }

  // The flat log from row `j` of segment `i` on.
  lemma LogFromPosition(segs: seq<Seg>, i: nat, j: nat)
    requires i < |segs| && j <= |segs[i].rows|
    ensures Position(segs, i, j) <= |Log(segs)|
    ensures Log(segs)[Position(segs, i, j)..] == segs[i].rows[j..] + Log(segs[i + 1..])
  {
    assert segs == segs[..i] + segs[i..];
    LogConcat(segs[..i], segs[i..]);
    LogCons(segs[i..]);
    assert segs[i..][1..] == segs[i + 1..];
  }

  // Parsing from a row boundary skips exactly the rows before it.
  lemma ParseFromBoundary(data: Bytes, before: seq<Row>)
    requires AllFit(before) && EncodeAll(before) <= data
    ensures |before| <= |Parse(data).rows|
    ensures Parse(data[|EncodeAll(before)|..]).rows == Parse(data).rows[|before|..]
  {
    hide Decode, Encode, Parse, EncodeAll;
    var rest := data[|EncodeAll(before)|..];
    assert data == EncodeAll(before) + rest;
    ParseEncoded(before, rest);
    assert (before + Parse(rest).rows)[|before|..] == Parse(rest).rows;
  }

  // The rows seen in the last listed file: at least those there when it was listed.
  lemma LastFileRows(rows: seq<Row>, later: seq<Row>, data: Bytes) returns (m: nat)
    requires AllFit(later) && rows <= later
    requires EncodeAll(rows) <= data <= EncodeAll(later)
    ensures |rows| <= m <= |later| && Parse(data).rows == later[..m]
  {
    hide Decode, Encode, Parse, EncodeAll;
    assert data == EncodeAll(later)[..|data|];
    assert later[..|rows|] == rows;
    m := ParsePrefix(later, |data|);
    if m < |rows| {
      EncodeAllMonotone(later, m + 1, |rows|);
    }
  }

  // A read that starts at an indexed row returns a contiguous run of the log from that row on,
  // with at least every row that was logged when the directory was listed.
  lemma SuffixRead(listed: seq<Seg>, now: seq<Seg>, seen: Contents, e: IndexEntry, i: nat, j: nat) returns (q: nat)
    requires WellFormed(listed) && WellFormed(now) && Extends(listed, now)
    requires Observed(listed, now, seen) && PointsAt(listed, e, i, j)
    ensures var names := ListFrom(Names(listed), e.file);
            && (forall k :: 0 <= k < |names| ==> names[k] in seen)
            && Position(listed, i, j) < |Log(listed)| <= q <= |Log(now)|
            && SuffixRows(names, seen, e.offset) == Log(now)[Position(listed, i, j)..q]
  {
    hide Parse, Ascending, ListFrom, EncodeAll;
    var k := |listed| - 1;
    var m := LastFileRows(listed[k].rows, now[k].rows, seen[listed[k].name]);
    var view := listed[k := Seg(listed[k].name, now[k].rows[..m])];
    q := |Log(view)|;
    ListedView(listed, now, seen, m);
    ViewIsLogPrefix(listed, now, m);
    PositionInLog(listed, i, j);
    assert Names(view) == Names(listed);
    ListFromAt(Names(listed), e.file, i);
    ViewSuffix(listed, now, view, seen, e, i, j);
    assert view[..i] == listed[..i];
    assert Log(now)[..q][Position(listed, i, j)..] == Log(now)[Position(listed, i, j)..q];
  }

  lemma ListedView(listed: seq<Seg>, now: seq<Seg>, seen: Contents, m: nat)
    requires WellFormed(listed) && Extends(listed, now) && Observed(listed, now, seen)
    requires m <= |now[|listed| - 1].rows|
    requires Parse(seen[listed[|listed| - 1].name]).rows == now[|listed| - 1].rows[..m]
    ensures var k := |listed| - 1;
            ParsesTo(listed[k := Seg(listed[k].name, now[k].rows[..m])], seen)
  {
    hide Parse, EncodeAll, Fits, Ascending;
    var k := |listed| - 1;
    forall i | 0 <= i < k ensures Parse(seen[listed[i].name]).rows == listed[i].rows {
      ParseEncodeAll(listed[i].rows);
    }
  }

  lemma ViewIsLogPrefix(listed: seq<Seg>, now: seq<Seg>, m: nat)
    requires Extends(listed, now)
    requires |listed[|listed| - 1].rows| <= m <= |now[|listed| - 1].rows|
    ensures var k := |listed| - 1;
            var view := listed[k := Seg(listed[k].name, now[k].rows[..m])];
            && |Log(listed)| <= |Log(view)| <= |Log(now)|
            && Log(view) == Log(now)[..|Log(view)|]
            && Log(listed) <= Log(view)
  {
    var k := |listed| - 1;
    var view := listed[k := Seg(listed[k].name, now[k].rows[..m])];
    assert Extends(listed, view);
    assert Extends(view, now);
    ExtendsGrowsLog(listed, view);
    ExtendsGrowsLog(view, now);
    assert view[..|listed|] == view;
  }

  lemma ViewSuffix(listed: seq<Seg>, now: seq<Seg>, view: seq<Seg>, seen: Contents, e: IndexEntry, i: nat, j: nat)
    requires |view| == |listed| && ParsesTo(view, seen) && PointsAt(listed, e, i, j)
    requires AllFit(listed[i].rows) && listed[i].rows <= view[i].rows && listed[i].name == view[i].name
    requires EncodeAll(listed[i].rows) <= seen[view[i].name]
    ensures forall k :: 0 <= k < |view| - i ==> Names(view)[i..][k] in seen
    ensures Position(view, i, j) <= |Log(view)|
    ensures SuffixRows(Names(view)[i..], seen, e.offset) == Log(view)[Position(view, i, j)..]
  {
    hide Parse, EncodeAll;
    var before, data := listed[i].rows[..j], seen[view[i].name];
    EncodeAllSplit(listed[i].rows, j);
    ParseFromBoundary(data, before);
    RowsOfSegments(view, seen, i + 1);
    LogFromPosition(view, i, j);
    assert Names(view)[i..][0] == view[i].name;
    assert Names(view)[i..][1..] == Names(view)[i + 1..];
  }

  /* ---------- Restoring the whole log ---------- */

  // What `read` finds in each file, whatever the bytes.
  function SegsOf(files: seq<File>): (segs: seq<Seg>)
    ensures |segs| == |files|
    ensures forall i :: 0 <= i < |files| ==> segs[i] == Seg(files[i].name, Parse(files[i].data).rows)
  {
    seq(|files|, i requires 0 <= i < |files| => Seg(files[i].name, Parse(files[i].data).rows))
  }

  // Files read back as the rows written to them exactly when all of those fit.
  lemma SegsOfRendered(segs: seq<Seg>)
    requires Formed(segs)
    ensures SegsOf(Render(segs)) == segs <==> WellFormed(segs)
  {
    hide Parse, EncodeAll, AllFit, Formed;
    var read := SegsOf(Render(segs));
    forall i | 0 <= i < |segs| ensures read[i] == segs[i] <==> AllFit(segs[i].rows) {
      ReadsBackExactlyWhen(segs[i].rows);
    }
  }

  // `restoreIndex` advances its offset by re-encoding the rows it was given.
  method RestoreIndex(rows: seq<Row>, name: Name) returns (entries: Index)
    requires AllFit(rows)
    ensures entries == Entries(name, 0, rows)
  {
    hide Encode, Layout;
    var offset := 0;
    entries := map[];
    for i := 0 to |rows|
      invariant entries == Entries(name, 0, rows[..i])
      invariant offset == |EncodeAll(rows[..i])|
    {
      var res := Marshal(rows[i]);
      assert rows[..i + 1][..i] == rows[..i];
      EncodeAllSplit(rows[..i + 1], i);
      assert rows[..i + 1][i..] == [rows[i]];
      EncodeAllOne(rows[i]);
      entries := entries[rows[i].lsn := IndexEntry(name, offset)];
      offset := offset + |res.value|;
    }
    assert rows[..|rows|] == rows;
  }

  // For any file contents those offsets are where `read` found each row.
  lemma RestoredOffsets(data: Bytes, j: nat)
    requires j < |Parse(data).rows|
    ensures var rows := Parse(data).rows;
            var offset := |EncodeAll(rows[..j])|;
            && offset <= |data|
            && Decode(data[offset..]) == Some((rows[j], |Encode(rows[j])|))
  {
    hide Decode, Encode, Parse, EncodeAll;
    var p := Parse(data);
    ParseSound(data);
    EncodeAllSplit(p.rows, j);
    EncodeAllSplit(p.rows[j..], 1);
    assert p.rows[j..][..1] == [p.rows[j]];
    EncodeAllOne(p.rows[j]);
    var offset, tail := |EncodeAll(p.rows[..j])|, EncodeAll(p.rows[j..][1..]) + data[p.used..];
    assert data == EncodeAll(p.rows[..j]) + (Encode(p.rows[j]) + tail) by {
      assert data == data[..p.used] + data[p.used..];
    }
    assert data[offset..] == Encode(p.rows[j]) + tail;
    DecodeEncode(p.rows[j], tail);
  }

  lemma RebuiltNext(segs: seq<Seg>, i: nat)
    requires i < |segs|
    ensures Rebuilt(segs[..i + 1]) == Rebuilt(segs[..i]) + Entries(segs[i].name, 0, segs[i].rows)
  {
    assert segs[..i + 1][..i] == segs[..i];
  }

  // Every file in turn: its rows for replay, its entries for the index.
  method RestoreSystem(files: seq<File>) returns (stream: seq<seq<Row>>, index: Index)
    ensures |stream| == |files|
    ensures forall i :: 0 <= i < |files| ==> stream[i] == SegsOf(files)[i].rows
    ensures index == Rebuilt(SegsOf(files))
  {
    hide Parse, Entries, Fits;
    stream, index := [], map[];
    ghost var segs := SegsOf(files);
    for i := 0 to |files|
      invariant |stream| == i && forall k :: 0 <= k < i ==> stream[k] == segs[k].rows
      invariant index == Rebuilt(segs[..i])
    {
      var data := ReadBytes(files[i].data);
      stream := stream + [data];
      ParseSound(files[i].data);
      var entries := RestoreIndex(data, files[i].name);
      RebuiltNext(segs, i);
      index := index + entries;
    }
    assert segs[..|files|] == segs;
  }
}
