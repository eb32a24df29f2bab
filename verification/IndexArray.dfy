// internal/segment/index.go, `IndexManagerArray`: a sorted array that has to answer like the map index.
module IndexArray {
  import opened Wrappers
  import opened ByteCodec
  import opened Directory
  import opened Segments

  datatype Entry = Entry(lsn: U64, file: Name, offset: nat)

  predicate Sorted(entries: seq<Entry>)
  {
    forall i, j :: 0 <= i < j < |entries| ==> entries[i].lsn < entries[j].lsn
  }

  // The map the array stands for.
  function AsMap(entries: seq<Entry>): (m: Index)
  {
    if entries == [] then map[]
    else
      var last := entries[|entries| - 1];
      AsMap(entries[..|entries| - 1])[last.lsn := IndexEntry(last.file, last.offset)]
  }

  lemma {:induction false} AppendIsUpdate(entries: seq<Entry>, batch: seq<Entry>)
    ensures AsMap(entries + batch) == AsMap(entries) + AsMap(batch)
    decreases |batch|
  {
    if batch == [] {
      assert entries + batch == entries;
    } else {
      var k := |batch| - 1;
      AppendIsUpdate(entries, batch[..k]);
      assert (entries + batch)[..|entries| + k] == entries + batch[..k];
    }
  }

  lemma {:induction false} KeysAreEntries(entries: seq<Entry>, lsn: U64)
    ensures lsn in AsMap(entries) <==> exists i :: 0 <= i < |entries| && entries[i].lsn == lsn
  {
    if entries != [] {
      var k := |entries| - 1;
      KeysAreEntries(entries[..k], lsn);
      assert forall i :: 0 <= i < k ==> entries[..k][i] == entries[i];
    }
  }

  // An entry whose LSN does not come again decides what the map holds for it.
  lemma EntryBetween(before: seq<Entry>, e: Entry, after: seq<Entry>)
    requires forall i :: 0 <= i < |after| ==> after[i].lsn != e.lsn
    ensures AsMap(before + [e] + after) == (AsMap(before) + AsMap(after))[e.lsn := IndexEntry(e.file, e.offset)]
  {
    AppendIsUpdate(before + [e], after);
    AppendIsUpdate(before, [e]);
    assert [e][..0] == [];
    assert AsMap([e]) == map[e.lsn := IndexEntry(e.file, e.offset)];
    KeysAreEntries(after, e.lsn);
  }

  lemma ReplaceIsUpdate(entries: seq<Entry>, k: nat, e: Entry)
    requires Sorted(entries) && k < |entries| && entries[k].lsn == e.lsn
    ensures Sorted(entries[k := e])
    ensures AsMap(entries[k := e]) == AsMap(entries)[e.lsn := IndexEntry(e.file, e.offset)]
  {
    hide AsMap;
    EntryBetween(entries[..k], entries[k], entries[k + 1..]);
    EntryBetween(entries[..k], e, entries[k + 1..]);
    assert entries == entries[..k] + [entries[k]] + entries[k + 1..];
    assert entries[k := e] == entries[..k] + [e] + entries[k + 1..];
  }

  lemma InsertIsUpdate(entries: seq<Entry>, k: nat, e: Entry)
    requires Sorted(entries) && k <= |entries|
    requires forall i :: 0 <= i < k ==> entries[i].lsn < e.lsn
    requires forall i :: k <= i < |entries| ==> e.lsn < entries[i].lsn
    ensures Sorted(entries[..k] + [e] + entries[k..])
    ensures AsMap(entries[..k] + [e] + entries[k..]) == AsMap(entries)[e.lsn := IndexEntry(e.file, e.offset)]
  {
    InsertStaysSorted(entries, k, e);
    hide AsMap, Sorted;
    EntryBetween(entries[..k], e, entries[k..]);
    AppendIsUpdate(entries[..k], entries[k..]);
    assert entries == entries[..k] + entries[k..];
  }

  lemma InsertStaysSorted(entries: seq<Entry>, k: nat, e: Entry)
    requires Sorted(entries) && k <= |entries|
    requires forall i :: 0 <= i < k ==> entries[i].lsn < e.lsn
    requires forall i :: k <= i < |entries| ==> e.lsn < entries[i].lsn
    ensures Sorted(entries[..k] + [e] + entries[k..])
  {
    var all := entries[..k] + [e] + entries[k..];
    forall i, j | 0 <= i < j < |all| ensures all[i].lsn < all[j].lsn {
      assert all[i] == (if i < k then entries[i] else if i == k then e else entries[i - 1]);
      assert all[j] == (if j < k then entries[j] else if j == k then e else entries[j - 1]);
    }
  }

  lemma LookupAt(entries: seq<Entry>, k: nat)
    requires Sorted(entries) && k < |entries|
    ensures entries[k].lsn in AsMap(entries)
    ensures AsMap(entries)[entries[k].lsn] == IndexEntry(entries[k].file, entries[k].offset)
  {
    hide AsMap;
    EntryBetween(entries[..k], entries[k], entries[k + 1..]);
    assert entries == entries[..k] + [entries[k]] + entries[k + 1..];
  }

  // Where halving the array leads, sorted or not.
  function Search(entries: seq<Entry>, lsn: U64, lo: nat, hi: nat): (k: nat)
    requires lo <= hi <= |entries|
    ensures lo <= k <= hi
    decreases hi - lo
  {
    if lo == hi then lo
    else
      var mid := (lo + hi) / 2;
      if entries[mid].lsn < lsn then Search(entries, lsn, mid + 1, hi) else Search(entries, lsn, lo, mid)
  }

  predicate BelowTo(entries: seq<Entry>, lsn: U64, k: nat)
    requires k <= |entries|
  {
    forall i :: 0 <= i < k ==> entries[i].lsn < lsn
  }

  predicate NotBelowFrom(entries: seq<Entry>, lsn: U64, k: nat)
    requires k <= |entries|
  {
    forall i :: k <= i < |entries| ==> entries[i].lsn >= lsn
  }

  lemma MiddleDecides(entries: seq<Entry>, lsn: U64, mid: nat)
    requires Sorted(entries) && mid < |entries|
    ensures if entries[mid].lsn < lsn then BelowTo(entries, lsn, mid + 1) else NotBelowFrom(entries, lsn, mid)
  {
    assert forall i :: 0 <= i < mid ==> entries[i].lsn < entries[mid].lsn;
    assert forall i :: mid < i < |entries| ==> entries[mid].lsn < entries[i].lsn;
  }

  lemma {:induction false} SearchSorted(entries: seq<Entry>, lsn: U64, lo: nat, hi: nat)
    requires Sorted(entries) && lo <= hi <= |entries| && BelowTo(entries, lsn, lo) && NotBelowFrom(entries, lsn, hi)
    ensures var k := Search(entries, lsn, lo, hi);
            BelowTo(entries, lsn, k) && NotBelowFrom(entries, lsn, k)
    decreases hi - lo
  {
    hide Sorted, BelowTo, NotBelowFrom;
    if lo < hi {
      var mid := (lo + hi) / 2;
      MiddleDecides(entries, lsn, mid);
      if entries[mid].lsn < lsn {
        SearchSorted(entries, lsn, mid + 1, hi);
      } else {
        SearchSorted(entries, lsn, lo, mid);
      }
    }
  }

  // In a sorted array that is where an LSN is, or would be: the first index whose LSN is not below it.
  method BinarySearchIndex(entries: seq<Entry>, lsn: U64) returns (lo: nat)
    ensures lo == Search(entries, lsn, 0, |entries|)
    ensures Sorted(entries) ==>
              && (forall i :: 0 <= i < lo ==> entries[i].lsn < lsn)
              && (forall i :: lo <= i < |entries| ==> entries[i].lsn >= lsn)
  {
    lo := 0;
    var hi := |entries|;
    while lo < hi
      invariant lo <= hi <= |entries|
      invariant Search(entries, lsn, lo, hi) == Search(entries, lsn, 0, |entries|)
    {
      var mid := (lo + hi) / 2;
      if entries[mid].lsn < lsn {
        lo := mid + 1;
      } else {
        hi := mid;
      }
    }
    if Sorted(entries) {
      SearchSorted(entries, lsn, 0, |entries|);
    }
  }

  // What `AddBatch` needs of its caller: it appends without looking.
  predicate InOrderAfter(entries: seq<Entry>, batch: seq<Entry>)
  {
    && Sorted(batch)
    && (entries != [] && batch != [] ==> entries[|entries| - 1].lsn < batch[0].lsn)
  }

  // The array stays sorted exactly when the batch is increasing and starts above the last entry.
  lemma AppendStaysSortedExactlyWhen(entries: seq<Entry>, batch: seq<Entry>)
    requires Sorted(entries)
    ensures Sorted(entries + batch) <==> InOrderAfter(entries, batch)
  {
    var all := entries + batch;
    if Sorted(all) {
      forall i, j | 0 <= i < j < |batch| ensures batch[i].lsn < batch[j].lsn {
        assert batch[i] == all[|entries| + i] && batch[j] == all[|entries| + j];
      }
      if entries != [] && batch != [] {
        assert all[|entries| - 1] == entries[|entries| - 1] && all[|entries|] == batch[0];
      }
    }
    if InOrderAfter(entries, batch) {
      forall i, j | 0 <= i < j < |all| ensures all[i].lsn < all[j].lsn {
        if i < |entries| <= j {
          BatchAbove(entries, batch, i, j - |entries|);
        }
      }
    }
  }

  lemma BatchAbove(entries: seq<Entry>, batch: seq<Entry>, i: nat, j: nat)
    requires Sorted(entries) && InOrderAfter(entries, batch) && i < |entries| && j < |batch|
    ensures entries[i].lsn < batch[j].lsn
  {
    assert i < |entries| - 1 ==> entries[i].lsn < entries[|entries| - 1].lsn;
    assert 0 < j ==> batch[0].lsn < batch[j].lsn;
  }

  /* ---------- Which arrays answer like the map ---------- */

  // What a lookup finds, sorted or not.
  function Found(entries: seq<Entry>, lsn: U64): (entry: Option<IndexEntry>)
  {
    var k := Search(entries, lsn, 0, |entries|);
    if k < |entries| && entries[k].lsn == lsn then Some(IndexEntry(entries[k].file, entries[k].offset)) else None
  }

  function MapFound(entries: seq<Entry>, lsn: U64): (entry: Option<IndexEntry>)
  {
    if lsn in AsMap(entries) then Some(AsMap(entries)[lsn]) else None
  }

  ghost predicate AnswersLikeMap(entries: seq<Entry>)
  {
    forall lsn :: Found(entries, lsn) == MapFound(entries, lsn)
  }

  predicate Distinct(entries: seq<Entry>)
  {
    forall i, j :: 0 <= i < j < |entries| ==> entries[i].lsn != entries[j].lsn
  }

  lemma SortedAnswers(entries: seq<Entry>, lsn: U64)
    requires Sorted(entries)
    ensures Found(entries, lsn) == MapFound(entries, lsn)
  {
    hide AsMap, Search;
    SearchSorted(entries, lsn, 0, |entries|);
    KeysAreEntries(entries, lsn);
    var k := Search(entries, lsn, 0, |entries|);
    if k < |entries| && entries[k].lsn == lsn {
      LookupAt(entries, k);
    }
  }

  // Which half of a window an entry found in it is on.
  lemma FoundOnItsSide(entries: seq<Entry>, lo: nat, hi: nat, k: nat)
    requires Distinct(entries) && lo <= k < hi <= |entries| && Search(entries, entries[k].lsn, lo, hi) == k
    ensures var mid := (lo + hi) / 2;
            && (k < mid ==> entries[k].lsn < entries[mid].lsn && Search(entries, entries[k].lsn, lo, mid) == k)
            && (k > mid ==> entries[mid].lsn < entries[k].lsn && Search(entries, entries[k].lsn, mid + 1, hi) == k)
  {
    var mid := (lo + hi) / 2;
    assert k < mid ==> entries[k].lsn != entries[mid].lsn;
  }

  // Searching each entry of a window finds it there: then the window is sorted around its middle, and so on down.
  lemma {:induction false} FoundMeansSorted(entries: seq<Entry>, lo: nat, hi: nat)
    requires Distinct(entries) && lo <= hi <= |entries|
    requires forall k :: lo <= k < hi ==> Search(entries, entries[k].lsn, lo, hi) == k
    ensures forall i, j :: lo <= i < j < hi ==> entries[i].lsn < entries[j].lsn
    decreases hi - lo
  {
    hide Search, Distinct;
    if lo < hi {
      var mid := (lo + hi) / 2;
      forall k | lo <= k < hi
        ensures k < mid ==> entries[k].lsn < entries[mid].lsn && Search(entries, entries[k].lsn, lo, mid) == k
        ensures k > mid ==> entries[mid].lsn < entries[k].lsn && Search(entries, entries[k].lsn, mid + 1, hi) == k
      {
        FoundOnItsSide(entries, lo, hi, k);
      }
      FoundMeansSorted(entries, lo, mid);
      FoundMeansSorted(entries, mid + 1, hi);
      forall i, j | lo <= i < j < hi ensures entries[i].lsn < entries[j].lsn {
        if i <= mid <= j {
          assert i < mid ==> entries[i].lsn < entries[mid].lsn;
          assert mid < j ==> entries[mid].lsn < entries[j].lsn;
        }
      }
    }
  }

  // With distinct LSNs the array answers like the map exactly when it is sorted.
  lemma AnswersLikeMapExactlyWhen(entries: seq<Entry>)
    requires Distinct(entries)
    ensures AnswersLikeMap(entries) <==> Sorted(entries)
  {
    if Sorted(entries) {
      forall lsn ensures Found(entries, lsn) == MapFound(entries, lsn) {
        SortedAnswers(entries, lsn);
      }
    } else if AnswersLikeMap(entries) {
      hide Search, AsMap;
      forall k | 0 <= k < |entries| ensures Search(entries, entries[k].lsn, 0, |entries|) == k {
        KeysAreEntries(entries, entries[k].lsn);
        assert Found(entries, entries[k].lsn) == MapFound(entries, entries[k].lsn);
      }
      FoundMeansSorted(entries, 0, |entries|);
    }
  }

  // So for new LSNs a batch keeps every lookup right exactly when it increases from above the last entry.
  lemma BatchKeepsLookupsExactlyWhen(entries: seq<Entry>, batch: seq<Entry>)
    requires Sorted(entries) && Distinct(entries + batch)
    ensures AnswersLikeMap(entries + batch) <==> InOrderAfter(entries, batch)
  {
    hide AnswersLikeMap, Distinct;
    AnswersLikeMapExactlyWhen(entries + batch);
    AppendStaysSortedExactlyWhen(entries, batch);
  }

  // A batch that comes late leaves the array unsorted, and a search then misses an entry the map has.
  lemma LateBatchHidesAnEntry(file: Name)
    ensures var entries := [Entry(5, file, 0)] + [Entry(3, file, 9)];
            && !Sorted(entries) && 3 in AsMap(entries)
            && entries[Search(entries, 3, 0, 2)].lsn != 3
  {
    var entries := [Entry(5, file, 0)] + [Entry(3, file, 9)];
    assert entries[0].lsn >= entries[1].lsn;
    assert Search(entries, 3, 0, 2) == Search(entries, 3, 0, 1) == Search(entries, 3, 0, 0) == 0;
  }

  class IndexManagerArray {
    var entries: seq<Entry>

    ghost predicate Valid()
      reads this
    {
      Sorted(entries)
    }

    ghost function View(): (m: Index)
      reads this
    {
      AsMap(entries)
    }

    constructor ()
      ensures Valid() && View() == map[]
    {
      entries := [];
    }

    // Append, overwrite or shifted insert; always the map update.
    method Add(lsn: U64, fileName: Name, offset: nat)
      requires Valid()
      modifies this
      ensures Valid() && View() == old(View())[lsn := IndexEntry(fileName, offset)]
    {
      var e := Entry(lsn, fileName, offset);
      var n := |entries|;
      if n == 0 || lsn > entries[n - 1].lsn {
        InsertIsUpdate(entries, n, e);
        assert entries[..n] + [e] + entries[n..] == entries + [e];
        entries := entries + [e];
        return;
      }
      var idx := BinarySearchIndex(entries, lsn);
      if idx < n && entries[idx].lsn == lsn {
        ReplaceIsUpdate(entries, idx, e);
        entries := entries[idx := e];
      } else {
        InsertIsUpdate(entries, idx, e);
        entries := entries[..idx] + [e] + entries[idx..];
      }
    }

    // Sorted afterwards, and then the map union, exactly when the caller kept the order.
    method AddBatch(batch: seq<Entry>)
      requires Valid()
      modifies this
      ensures entries == old(entries) + batch
      ensures Valid() <==> InOrderAfter(old(entries), batch)
      ensures View() == old(View()) + AsMap(batch)
    {
      AppendStaysSortedExactlyWhen(entries, batch);
      AppendIsUpdate(entries, batch);
      if |batch| == 0 {
        assert entries + batch == entries;
        return;
      }
      entries := entries + batch;
    }

    // Answers like the map while the array is sorted; which others do is `AnswersLikeMapExactlyWhen`.
    method GetIndex(lsn: U64) returns (entry: Option<IndexEntry>)
      ensures entry == Found(entries, lsn)
      ensures Valid() ==> entry == if lsn in View() then Some(View()[lsn]) else None
      ensures Distinct(entries) && !Valid() ==> exists other :: Found(entries, other) != MapFound(entries, other)
    {
      hide AsMap, Search;
      var idx := BinarySearchIndex(entries, lsn);
      if Valid() {
        SortedAnswers(entries, lsn);
      } else if Distinct(entries) {
        AnswersLikeMapExactlyWhen(entries);
      }
      if idx < |entries| && entries[idx].lsn == lsn {
        return Some(IndexEntry(entries[idx].file, entries[idx].offset));
      }
      return None;
    }
  }
}
