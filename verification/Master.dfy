// internal/database/replication/master.go, `Handle`: one request, one framed reply.
// Interleaving with growth is the subject of Replication.dfy; here the listing and the file contents are given.
module Master {
  import opened ByteCodec
  import opened WalRecord
  import opened LogStream
  import opened Directory
  import opened Segments
  import opened LogReader
  import opened Protocol
  import SegmentManager

  lemma {:induction false} RowsOfFit(names: seq<Name>, seen: Contents)
    requires forall i :: 0 <= i < |names| ==> names[i] in seen
    ensures AllFit(RowsOf(names, seen))
  {
    hide Parse, Fits;
    if names != [] {
      ParseSound(seen[names[0]]);
      RowsOfFit(names[1..], seen);
    }
  }

  lemma SuffixRowsFit(names: seq<Name>, seen: Contents, offset: nat)
    requires forall i :: 0 <= i < |names| ==> names[i] in seen
    ensures AllFit(SuffixRows(names, seen, offset))
  {
    hide Parse, Fits, RowsOf;
    if names != [] {
      ParseSound(From(seen[names[0]], offset));
      RowsOfFit(names[1..], seen);
    }
  }

  // What the files from an entry on are answered with: their rows if there are any.
  ghost predicate AnswersFrom(entry: IndexEntry, listing: seq<Name>, seen: Contents, message: Bytes)
  {
    var names := ListFrom(listing, entry.file);
    if exists i :: 0 <= i < |names| && names[i] !in seen then exists m :: message == WriteMessage(Failure(m))
    else
      var rows := SuffixRows(names, seen, entry.offset);
      message == WriteMessage(if rows == [] then Failure(NO_NEW_LOGS) else Data(EncodeAll(rows)))
  }

  // The reply carries data exactly when the LSN asked for is indexed and its files yield rows,
  // and then it carries those rows; every other outcome is an error reply.
  ghost predicate Answers(index: Index, request: Bytes, listing: seq<Name>, seen: Contents, message: Bytes)
  {
    match ReadRequest(request)
    case None => exists m :: message == WriteMessage(Failure(m))
    case Some(lsn) =>
      if lsn == 0 then message == WriteMessage(Failure(LSN_IS_ZERO))
      else if lsn !in index then message == WriteMessage(Failure(NO_NEW_LOGS))
      else AnswersFrom(index[lsn], listing, seen, message)
  }

  method Handle(sm: SegmentManager.Manager, request: Bytes, listing: seq<Name>, seen: Contents)
    returns (message: Bytes)
    requires sm.Valid() && Ascending(listing)
    ensures Answers(sm.index, request, listing, seen, message)
  {
    hide WriteMessage, ReadRequest, SegmentManager.Manager.Valid, Finds, StartsRow, Lsns, Log, WellFormed, AnswersFrom;
    var req := ReadRequest(request);
    if req.None? {
      message := WriteMessage(Failure([]));
      return;
    }
    if req.value == 0 {
      return WriteMessage(Failure(LSN_IS_ZERO));
    }
    var entry := sm.GetIndex(req.value);
    if entry.None? {
      return WriteMessage(Failure(NO_NEW_LOGS));
    }
    message := SendFrom(entry.value, listing, seen);
  }

  method SendFrom(entry: IndexEntry, listing: seq<Name>, seen: Contents) returns (message: Bytes)
    requires Ascending(listing)
    ensures AnswersFrom(entry, listing, seen, message)
  {
    hide WriteMessage, SuffixRows, EncodeAll, ListFrom, Fits;
    var res := ReadFrom(listing, seen, entry.file, entry.offset);
    if res.Err? {
      message := WriteMessage(Failure([]));
      return;
    }
    var rows := res.value;
    if |rows| == 0 {
      return WriteMessage(Failure(NO_NEW_LOGS));
    }
    SuffixRowsFit(ListFrom(listing, entry.file), seen, entry.offset);
    AllFitEncodable(rows);
    var out := WriteRows(rows);
    return out.value;
  }
}
