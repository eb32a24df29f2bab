// internal/segment/segment.go and internal/segment/segment_manager.go: batches of rows into bounded files.
module SegmentManager {
  import opened Wrappers
  import opened ByteCodec
  import opened WalRecord
  import opened LogStream
  import opened Directory
  import opened Segments

  // The directory and its last file, which is the one open for appending.
  class FileSegment {
    const maxSize: nat
    var files: seq<File>
    var size: nat

    ghost predicate Valid()
      reads this
    {
      |files| > 0 && size == |files[|files| - 1].data|
    }

    // Opens the last file of the directory at its full size, or creates the first one.
    constructor (files: seq<File>, maxSize: nat, name: Name)
      ensures Valid() && this.maxSize == maxSize
      ensures this.files == if files == [] then [File(name, [])] else files
    {
      this.maxSize := maxSize;
      if |files| == 0 {
        this.files, size := [File(name, [])], 0;
      } else {
        this.files, size := files, |files[|files| - 1].data|;
      }
    }

    method Rotate(name: Name)
      requires Valid()
      modifies this
      ensures Valid() && files == old(files) + [File(name, [])]
    {
      files := files + [File(name, [])];
      size := 0;
    }

    method Write(data: Bytes)
      requires Valid()
      modifies this
      ensures Valid()
      ensures var k := |old(files)| - 1;
              files == old(files)[k := File(old(files)[k].name, old(files)[k].data + data)]
    {
      var k := |files| - 1;
      files := files[k := File(files[k].name, files[k].data + data)];
      size := size + |data|;
    }

    predicate Fits(n: nat)
      reads this
    {
      maxSize >= n + size
    }

    function GetName(): (name: Name)
      requires Valid()
      reads this
    {
      files[|files| - 1].name
    }
  }

  lemma RenderAppend(segs: seq<Seg>, rows: seq<Row>)
    requires |segs| > 0
    ensures var k := |segs| - 1;
            Render(AppendRows(segs, rows)) ==
            Render(segs)[k := File(segs[k].name, Render(segs)[k].data + EncodeAll(rows))]
  {
    hide Encode, EncodeAll;
    EncodeAllConcat(segs[|segs| - 1].rows, rows);
  }

  class Manager {
    const seg: FileSegment
    var index: Index
    var pending: seq<Index>      // batches handed to goroutines and not yet installed
    ghost var segs: seq<Seg>     // what the files hold, row by row

    ghost predicate Valid()
      reads this, seg
    {
      && seg.Valid()
      && Formed(segs) && seg.files == Render(segs)
      && IndexAgrees(segs, index, pending)
    }

    // No file is over the limit but for a single row, and none was started before it had to be.
    ghost predicate Tidy()
      reads this
    {
      Greedy(segs, seg.maxSize)
    }

    // A manager over a directory that holds `segs`, with the index not yet restored.
    constructor (seg: FileSegment, ghost segs: seq<Seg>)
      ensures this.seg == seg && this.segs == segs && index == map[] && pending == []
    {
      this.seg, this.segs, index, pending := seg, segs, map[], [];
    }

    // `Write`: the rows land where row-by-row placement puts them; nothing changes if one cannot be encoded.
    // `names` are what the clock would name new files; a write that is refused needs none.
    method Write(rows: seq<Row>, names: seq<Name>) returns (ok: bool)
      requires Valid() && FreshNames(segs, names)
      requires Encodable(rows) ==> |names| >= |rows|
      modifies this, seg
      ensures Valid() && index == old(index) && old(pending) <= pending
      ensures ok <==> Encodable(rows)
      ensures ok ==> segs == Place(old(segs), seg.maxSize, rows, names)
      ensures ok ==> BatchKeys(pending[|old(pending)|..]) == Lsns(rows)
      ensures !ok ==> segs == old(segs) && pending == old(pending) && seg.files == old(seg.files)
      ensures old(Tidy()) ==> Tidy()
    {
      hide Greedy;
      if Encodable(rows) && Tidy() {
        FormNotEmpty(segs);
        PlaceStaysGreedy(segs, seg.maxSize, rows, names);
      }
      var batch;
      batch, ok := CreateBatch(rows);
      if ok {
        ProcessBatches(batch, rows, names);
      }
    }

    method CreateBatch(rows: seq<Row>) returns (batch: seq<Bytes>, ok: bool)
      ensures ok <==> Encodable(rows)
      ensures ok ==> |batch| == |rows| && forall i :: 0 <= i < |rows| ==> batch[i] == Encode(rows[i])
    {
      hide Encode, Layout;
      batch := [];
      for i := 0 to |rows|
        invariant |batch| == i
        invariant forall j :: 0 <= j < i ==> Marshalable(rows[j]) && batch[j] == Encode(rows[j])
      {
        var res := Marshal(rows[i]);
        if res.Err? {
          return [], false;
        }
        batch := batch + [res.value];
      }
      return batch, true;
    }

    method ProcessBatches(batch: seq<Bytes>, rows: seq<Row>, names: seq<Name>)
      requires Valid()
      requires |batch| == |rows| && forall i :: 0 <= i < |rows| ==> batch[i] == Encode(rows[i])
      requires |names| >= |rows| && FreshNames(segs, names)
      modifies this, seg
      ensures Valid() && index == old(index) && old(pending) <= pending
      ensures segs == Place(old(segs), seg.maxSize, rows, names)
      ensures BatchKeys(pending[|old(pending)|..]) == Lsns(rows)
    {
      hide Encode, EncodeAll, Formed, IndexAgrees, Place, FreshNames, AppendRows, BatchKeys, Lsns;
      FormNotEmpty(segs);
      var batchSize := BatchSize(batch, rows);
      if seg.Fits(batchSize) {
        PlaceTogether(segs, seg.maxSize, rows, names);
        NoBatchesYet(pending, rows);
        WriteBatch(batch, rows);
        assert rows[0..|rows|] == rows;
        OneBatchMore(old(pending), old(pending), pending, rows, 0, |rows|);
        return;
      }
      SplitBatches(batch, rows, names);
    }

    // The size tried first counts one byte too many per row, which only makes the test stricter.
    method BatchSize(batch: seq<Bytes>, ghost rows: seq<Row>) returns (n: nat)
      requires |batch| == |rows| && forall i :: 0 <= i < |rows| ==> batch[i] == Encode(rows[i])
      ensures n == |EncodeAll(rows)| + |rows|
    {
      hide Encode;
      n := 0;
      for i := 0 to |batch|
        invariant n == |EncodeAll(rows[..i])| + i
      {
        EncodeAllSnoc(rows, i);
        n := n + |batch[i]| + 1;
      }
      assert rows[..|rows|] == rows;
    }

    // The splitting loop: rows [start..i) are waiting, `currentSize` bytes of them.
    method SplitBatches(batch: seq<Bytes>, rows: seq<Row>, names: seq<Name>)
      requires Valid()
      requires |batch| == |rows| && forall i :: 0 <= i < |rows| ==> batch[i] == Encode(rows[i])
      requires |names| >= |rows| && FreshNames(segs, names)
      modifies this, seg
      ensures Valid() && index == old(index) && old(pending) <= pending
      ensures segs == Place(old(segs), seg.maxSize, rows, names)
      ensures BatchKeys(pending[|old(pending)|..]) == Lsns(rows)
    {
      hide Encode, EncodeAll, Place, FreshNames, AppendRows, Valid, BatchKeys, Lsns;
      OpenFile();
      var currentSize, start, used := 0, 0, 0;
      SplitStarts(segs, rows, names);
      NoBatchesYet(pending, rows);
      for i := 0 to |batch|
        invariant 0 <= start <= i && used <= i
        invariant Valid() && index == old(index) && old(pending) <= pending && |segs| > 0
        invariant currentSize == |EncodeAll(rows[start..i])|
        invariant BatchKeys(pending[|old(pending)|..]) == Lsns(rows[..start])
        invariant FreshNames(segs, names[used..])
        invariant Place(AppendRows(segs, rows[start..i]), seg.maxSize, rows[i..], names[used..]) ==
                  Place(old(segs), seg.maxSize, rows, names)
      {
        OpenFile();
        var size := |batch[i]|;
        FreshHead(segs, names[used..]);
        PlaceOneMore(segs, seg.maxSize, rows, start, i, names[used..]);
        if !seg.Fits(currentSize + size) {
          NamesAfterRotation(names, used);
          ghost var before := pending;
          FlushAndRotate(batch[start..i], rows[start..i], names[used]);
          OneBatchMore(old(pending), before, pending, rows, start, i);
          FreshTail(segs, names[used..]);
          start, currentSize := i, 0;
          used := used + 1;
        }
        currentSize := currentSize + size;
        EncodeAllSnocFrom(rows, start, i);
      }
      OpenFile();
      assert rows[start..|rows|] == rows[start..];
      PlaceNothing(AppendRows(segs, rows[start..]), seg.maxSize, rows, names[used..]);
      ghost var before := pending;
      WriteBatch(batch[start..], rows[start..]);
      OneBatchMore(old(pending), before, pending, rows, start, |rows|);
    }

    // The open file is the last one, at its recorded size.
    lemma OpenFile()
      requires Valid()
      ensures |segs| > 0 && seg.size == Size(segs[|segs| - 1])
    {
      hide Formed, IndexAgrees, EncodeAll, Render;
      FormNotEmpty(segs);
      assert seg.files[|segs| - 1] == Render(segs)[|segs| - 1];
    }

    method FlushAndRotate(batch: seq<Bytes>, rows: seq<Row>, name: Name)
      requires Valid() && name != [] && Less(segs[|segs| - 1].name, name)
      requires |batch| == |rows| && forall i :: 0 <= i < |rows| ==> batch[i] == Encode(rows[i])
      modifies this, seg
      ensures Valid() && index == old(index) && old(pending) <= pending
      ensures segs == AppendRows(old(segs), rows) + [Seg(name, [])]
      ensures |pending| == |old(pending)| + 1 && pending[|pending| - 1].Keys == Lsns(rows)
    {
      hide Encode, Formed, IndexAgrees;
      WriteBatch(batch, rows);
      RotateGrows(segs, name);
      RotateAgrees(segs, index, pending, name);
      seg.Rotate(name);
      segs := segs + [Seg(name, [])];
    }

    // `writeBatch`: one append to the open file, and its index entries left for publication.
    method WriteBatch(batch: seq<Bytes>, rows: seq<Row>)
      requires Valid()
      requires |batch| == |rows| && forall i :: 0 <= i < |rows| ==> batch[i] == Encode(rows[i])
      modifies this, seg
      ensures Valid() && index == old(index)
      ensures segs == AppendRows(old(segs), rows)
      ensures var last := old(segs)[|old(segs)| - 1];
              pending == old(pending) + [Entries(last.name, Size(last), rows)]
      ensures pending[|pending| - 1].Keys == Lsns(rows)
    {
      hide Encode, Formed, IndexAgrees, Entries, Render, AppendRows, Lsns;
      FormNotEmpty(segs);
      OpenFile();
      var entries := BatchEntries(batch, rows, seg.GetName(), seg.size);
      EntriesSound(seg.GetName(), seg.size, rows);
      AppendRowsGrows(segs, rows);
      AppendAgrees(segs, index, pending, rows);
      AppendToFile(batch, rows);
      pending := pending + [entries];
      segs := AppendRows(segs, rows);
    }

    method AppendToFile(batch: seq<Bytes>, ghost rows: seq<Row>)
      requires seg.Valid() && |segs| > 0 && seg.files == Render(segs)
      requires |batch| == |rows| && forall i :: 0 <= i < |rows| ==> batch[i] == Encode(rows[i])
      modifies seg
      ensures seg.Valid() && seg.files == Render(AppendRows(segs, rows))
    {
      hide Encode, AppendRows;
      var data := Flatten(batch, rows);
      RenderAppend(segs, rows);
      if |data| > 0 {
        seg.Write(data);
      } else {
        assert seg.files[|segs| - 1].data + data == seg.files[|segs| - 1].data;
        assert Render(AppendRows(segs, rows)) == seg.files;
      }
    }

    method BatchEntries(batch: seq<Bytes>, rows: seq<Row>, name: Name, start: nat) returns (entries: Index)
      requires |batch| == |rows| && forall i :: 0 <= i < |rows| ==> batch[i] == Encode(rows[i])
      ensures entries == Entries(name, start, rows)
    {
      hide Encode;
      var offset := start;
      entries := map[];
      for i := 0 to |rows|
        invariant entries == Entries(name, start, rows[..i])
        invariant offset == start + |EncodeAll(rows[..i])|
      {
        assert rows[..i + 1][..i] == rows[..i];
        entries := entries[rows[i].lsn := IndexEntry(name, offset)];
        EncodeAllSnoc(rows, i);
        offset := offset + |batch[i]|;
      }
      assert rows[..|rows|] == rows;
    }

    method Flatten(batch: seq<Bytes>, ghost rows: seq<Row>) returns (buf: Bytes)
      requires |batch| == |rows| && forall i :: 0 <= i < |rows| ==> batch[i] == Encode(rows[i])
      ensures buf == EncodeAll(rows)
    {
      hide Encode;
      buf := [];
      for i := 0 to |batch|
        invariant buf == EncodeAll(rows[..i])
      {
        EncodeAllSnoc(rows, i);
        buf := buf + batch[i];
      }
      assert rows[..|rows|] == rows;
    }

    // One of the goroutines started by `writeBatch` runs.
    method Publish(k: nat)
      requires Valid() && k < |pending|
      modifies this
      ensures Valid() && segs == old(segs)
      ensures index == old(index) + old(pending)[k] && pending == Without(old(pending), k)
    {
      hide Formed, IndexAgrees;
      PublishAgrees(segs, index, pending, k);
      AddBatchIndex(pending[k]);
      pending := Without(pending, k);
    }

    // The map index takes a batch entry by entry, in the arbitrary order a Go map is ranged over.
    method AddBatchIndex(entries: Index)
      modifies this`index
      ensures index == old(index) + entries
    {
      var todo := entries.Keys;
      while todo != {}
        invariant todo <= entries.Keys
        invariant index == old(index) + map lsn | lsn in entries && lsn !in todo :: entries[lsn]
        decreases |todo|
      {
        var lsn :| lsn in todo;
        index := index[lsn := entries[lsn]];
        todo := todo - {lsn};
      }
    }

    // An entry found is right: a row with that LSN starts at its file and offset. An LSN not found is not logged,
    // or its batch still waits to be published.
    method GetIndex(lsn: U64) returns (entry: Option<IndexEntry>)
      requires Valid()
      ensures entry.Some? <==> lsn in index
      ensures entry.Some? ==> entry.value == index[lsn] && Finds(segs, lsn, entry.value)
      ensures entry.None? && pending == [] ==> lsn !in Lsns(Log(segs))
      ensures entry.None? && lsn in Lsns(Log(segs)) ==> exists k :: 0 <= k < |pending| && lsn in pending[k].Keys
      ensures entry.Some? && WellFormed(segs) ==>
                exists i: nat :: i < |segs| && seg.files[i].name == entry.value.file &&
                  StartsRow(seg.files[i].data, entry.value.offset, lsn)
    {
      hide Formed, WellFormed, Log, Lsns, Finds, Render, StartsRow;
      entry := if lsn in index then Some(index[lsn]) else None;
      if entry.Some? && WellFormed(segs) {
        ghost var i := IndexedBytes(segs, index, lsn);
      }
    }
  }

  // A manager over an empty directory, as the program starts it the first time.
  method OpenEmpty(maxSize: nat, name: Name) returns (m: Manager)
    requires name != []
    ensures fresh(m) && fresh(m.seg) && m.Valid()
    ensures m.segs == [Seg(name, [])] && m.seg.maxSize == maxSize && m.index == map[] && m.pending == [] && m.Tidy()
  {
    var seg := new FileSegment([], maxSize, name);
    ghost var segs := [Seg(name, [])];
    m := new Manager(seg, segs);
    EmptyDirectory(name);
  }

  lemma EmptyDirectory(name: Name)
    requires name != []
    ensures var segs := [Seg(name, [])];
            && WellFormed(segs) && Render(segs) == [File(name, [])] && Log(segs) == []
            && IndexAgrees(segs, map[], [])
  {
    var segs := [Seg(name, [])];
    assert segs[..0] == [] && Log(segs) == [];
    assert BatchKeys([]) == {} && Lsns([]) == {};
  }

  /* ---------- The batches handed over so far ---------- */

  lemma NoBatchesYet(pending: seq<Index>, rows: seq<Row>)
    ensures BatchKeys(pending[|pending|..]) == Lsns(rows[..0])
  {
    assert BatchKeys([]) == {} && Lsns([]) == {};
  }

  lemma OneBatchMore(first: seq<Index>, before: seq<Index>, after: seq<Index>, rows: seq<Row>, start: nat, i: nat)
    requires first <= before <= after && |after| == |before| + 1
    requires start <= i <= |rows|
    requires BatchKeys(before[|first|..]) == Lsns(rows[..start])
    requires after[|before|].Keys == Lsns(rows[start..i])
    ensures BatchKeys(after[|first|..]) == Lsns(rows[..i])
    ensures i == |rows| ==> BatchKeys(after[|first|..]) == Lsns(rows)
  {
    hide BatchKeys, Lsns;
    assert after[|first|..] == before[|first|..] + [after[|before|]];
    BatchKeysConcat(before[|first|..], [after[|before|]]);
    BatchKeysOne(after[|before|]);
    assert rows[..i] == rows[..start] + rows[start..i];
    LsnsConcat(rows[..start], rows[start..i]);
    assert rows[..|rows|] == rows;
  }

  /* ---------- Steps of the splitting loop ---------- */

  lemma EncodeAllSnoc(rows: seq<Row>, i: nat)
    requires i < |rows|
    ensures EncodeAll(rows[..i + 1]) == EncodeAll(rows[..i]) + Encode(rows[i])
  {
    hide Encode;
    assert rows[..i + 1] == rows[..i] + [rows[i]];
    EncodeAllConcat(rows[..i], [rows[i]]);
    EncodeAllOne(rows[i]);
  }

  lemma EncodeAllSnocFrom(rows: seq<Row>, start: nat, i: nat)
    requires start <= i < |rows|
    ensures EncodeAll(rows[start..i + 1]) == EncodeAll(rows[start..i]) + Encode(rows[i])
    ensures start == i ==> EncodeAll(rows[start..i]) == []
  {
    hide Encode;
    assert rows[start..i + 1] == rows[start..i] + [rows[i]];
    EncodeAllConcat(rows[start..i], [rows[i]]);
    EncodeAllOne(rows[i]);
  }

  lemma SplitStarts(segs: seq<Seg>, rows: seq<Row>, names: seq<Name>)
    requires |segs| > 0
    ensures AppendRows(segs, rows[0..0]) == segs && rows[0..] == rows && names[0..] == names
    ensures EncodeAll(rows[0..0]) == []
  {
    assert segs[|segs| - 1].rows + [] == segs[|segs| - 1].rows;
  }

  lemma PlaceNothing(segs: seq<Seg>, max: nat, rows: seq<Row>, names: seq<Name>)
    requires |segs| > 0
    ensures Place(segs, max, rows[|rows|..], names) == segs
  {
  }

  lemma FreshHead(segs: seq<Seg>, names: seq<Name>)
    requires |segs| > 0 && FreshNames(segs, names) && |names| > 0
    ensures names[0] != [] && Less(segs[|segs| - 1].name, names[0])
    ensures Ascending(names)
  {
    var all := [segs[|segs| - 1].name] + names;
    assert Less(all[0], all[1]);
    assert all[1..] == names;
  }

  lemma FreshTail(segs: seq<Seg>, names: seq<Name>)
    requires |segs| > 0 && |names| > 0 && segs[|segs| - 1].name == names[0] && Ascending(names)
    ensures FreshNames(segs, names[1..])
  {
    assert [names[0]] + names[1..] == names;
  }

  lemma NamesAfterRotation(names: seq<Name>, used: nat)
    requires used < |names|
    ensures names[used..][1..] == names[used + 1..] && names[used..][0] == names[used]
  {
  }

  // A whole batch that fits stays together.
  lemma {:induction false} PlaceTogether(segs: seq<Seg>, max: nat, rows: seq<Row>, names: seq<Name>)
    requires |segs| > 0 && |names| >= |rows|
    requires Size(segs[|segs| - 1]) + |EncodeAll(rows)| <= max
    ensures Place(segs, max, rows, names) == AppendRows(segs, rows)
    decreases |rows|
  {
    hide Encode;
    var k := |segs| - 1;
    if rows == [] {
      assert segs[k].rows + [] == segs[k].rows;
    } else {
      var next := AppendRows(segs, [rows[0]]);
      EncodeAllConcat(segs[k].rows, [rows[0]]);
      EncodeAllOne(rows[0]);
      PlaceTogether(next, max, rows[1..], names);
      assert segs[k].rows + [rows[0]] + rows[1..] == segs[k].rows + rows;
      assert AppendRows(next, rows[1..]) == AppendRows(segs, rows);
    }
  }

  // Placement of the next row, seen from the loop: it joins the waiting rows, or these are flushed
  // and it opens the next file.
  lemma PlaceOneMore(segs: seq<Seg>, max: nat, rows: seq<Row>, start: nat, i: nat, names: seq<Name>)
    requires |segs| > 0 && start <= i < |rows| && |names| >= |rows| - i
    ensures var size := Size(segs[|segs| - 1]) + |EncodeAll(rows[start..i])| + |Encode(rows[i])|;
            var here := Place(AppendRows(segs, rows[start..i]), max, rows[i..], names);
            && (size <= max ==> here == Place(AppendRows(segs, rows[start..i + 1]), max, rows[i + 1..], names))
            && (size > max ==>
                  var rotated := AppendRows(segs, rows[start..i]) + [Seg(names[0], [])];
                  here == Place(AppendRows(rotated, rows[i..i + 1]), max, rows[i + 1..], names[1..]))
  {
    hide Encode;
    var k, waiting := |segs| - 1, AppendRows(segs, rows[start..i]);
    EncodeAllConcat(segs[k].rows, rows[start..i]);
    assert rows[i..][0] == rows[i] && rows[i..][1..] == rows[i + 1..];
    assert segs[k].rows + rows[start..i] + [rows[i]] == segs[k].rows + rows[start..i + 1];
    assert AppendRows(waiting, [rows[i]]) == AppendRows(segs, rows[start..i + 1]);
    var rotated := waiting + [Seg(names[0], [])];
    assert [] + rows[i..i + 1] == [rows[i]];
    assert AppendRows(rotated, rows[i..i + 1]) == waiting + [Seg(names[0], [rows[i]])];
  }
}
