// internal/database/logs/log_reader.go, `read`: a stream of bytes, delivered in chunks, back into rows.
// The specification is the greedy parse of all the bytes at once.
module LogStream {
  import opened ByteCodec
  import opened WalRecord

  function EncodeAll(rows: seq<Row>): (s: Bytes)
  {
    if rows == [] then [] else Encode(rows[0]) + EncodeAll(rows[1..])
  }

  predicate AllFit(rows: seq<Row>)
  {
    forall i :: 0 <= i < |rows| ==> Fits(rows[i])
  }

  // The rows a batch may hold for `Marshal` to accept them all.
  predicate Encodable(rows: seq<Row>)
  {
    forall i :: 0 <= i < |rows| ==> Marshalable(rows[i])
  }

  lemma AllFitEncodable(rows: seq<Row>)
    requires AllFit(rows)
    ensures Encodable(rows)
  {
  }

  lemma AllFitConcat(a: seq<Row>, b: seq<Row>)
    ensures AllFit(a + b) <==> AllFit(a) && AllFit(b)
  {
    hide Fits;
    assert forall i :: 0 <= i < |a| ==> (a + b)[i] == a[i];
    assert forall i :: 0 <= i < |b| ==> (a + b)[|a| + i] == b[i];
  }

  datatype Parsed = Parsed(rows: seq<Row>, used: nat)

  // Takes rows off the front for as long as one decodes.
  function Parse(data: Bytes): (p: Parsed)
    ensures p.used <= |data|
    decreases |data|
  {
    match Decode(data)
    case None => Parsed([], 0)
    case Some((r, n)) =>
      var rest := Parse(data[n..]);
      Parsed([r] + rest.rows, n + rest.used)
  }

  /* ---------- Laws of EncodeAll and Parse ---------- */

  lemma {:induction false} EncodeAllConcat(a: seq<Row>, b: seq<Row>)
    ensures EncodeAll(a + b) == EncodeAll(a) + EncodeAll(b)
  {
    if a == [] {
      assert a + b == b;
    } else {
      assert (a + b)[1..] == a[1..] + b;
      EncodeAllConcat(a[1..], b);
    }
  }

  lemma EncodeAllSplit(rows: seq<Row>, k: nat)
    requires k <= |rows|
    ensures EncodeAll(rows) == EncodeAll(rows[..k]) + EncodeAll(rows[k..])
  {
    assert rows == rows[..k] + rows[k..];
    EncodeAllConcat(rows[..k], rows[k..]);
  }

  lemma EncodeAllOne(r: Row)
    ensures EncodeAll([r]) == Encode(r)
  {
    assert EncodeAll([r][1..]) == [];
  }

  lemma CutTwice(data: Bytes, n: nat, m: nat)
    requires n + m <= |data|
    ensures data[..n + m] == data[..n] + data[n..][..m]
    ensures data[n..][m..] == data[n + m..]
  {
  }

  lemma {:induction false} ParseFits(data: Bytes)
    ensures AllFit(Parse(data).rows)
    decreases |data|
  {
    hide Decode, Fits;
    if Decode(data).Some? {
      EncodeDecode(data);
      ParseFits(data[Decode(data).value.1..]);
    }
  }

  // Greedy parsing loses nothing: the rows encode to exactly the bytes used, and no row starts after them.
  lemma {:induction false} ParseSound(data: Bytes)
    ensures var p := Parse(data);
            && AllFit(p.rows)
            && EncodeAll(p.rows) == data[..p.used]
            && Decode(data[p.used..]).None?
    decreases |data|
  {
    hide Decode, Encode, AllFit;
    ParseFits(data);
    if Decode(data).Some? {
      var (r, n) := Decode(data).value;
      var rest := Parse(data[n..]);
      EncodeDecode(data);
      ParseSound(data[n..]);
      assert ([r] + rest.rows)[1..] == rest.rows;
      CutTwice(data, n, rest.used);
    }
  }

  // Rows in front of any bytes come out first, and then whatever those bytes hold.
  lemma {:induction false} ParseEncoded(rows: seq<Row>, tail: Bytes)
    requires AllFit(rows)
    ensures Parse(EncodeAll(rows) + tail) ==
            Parsed(rows + Parse(tail).rows, |EncodeAll(rows)| + Parse(tail).used)
  {
    hide Decode, Encode;
    if rows == [] {
      assert EncodeAll(rows) + tail == tail;
      assert rows + Parse(tail).rows == Parse(tail).rows;
    } else {
      ParseEncoded(rows[1..], tail);
      ParseCons(rows[0], EncodeAll(rows[1..]) + tail);
      assert EncodeAll(rows) + tail == Encode(rows[0]) + (EncodeAll(rows[1..]) + tail);
      assert [rows[0]] + (rows[1..] + Parse(tail).rows) == rows + Parse(tail).rows;
    }
  }

  lemma ParseCons(r: Row, tail: Bytes)
    requires Fits(r)
    ensures Parse(Encode(r) + tail) == Parsed([r] + Parse(tail).rows, |Encode(r)| + Parse(tail).used)
  {
    hide Decode, Encode;
    DecodeEncode(r, tail);
    assert (Encode(r) + tail)[|Encode(r)|..] == tail;
  }

  lemma ParseNothing(data: Bytes)
    requires Decode(data).None?
    ensures Parse(data) == Parsed([], 0)
  {
  }

  // Parsing is the only way to cut bytes into rows followed by something that starts no row.
  lemma ParseUnique(rows: seq<Row>, tail: Bytes)
    requires AllFit(rows) && Decode(tail).None?
    ensures Parse(EncodeAll(rows) + tail) == Parsed(rows, |EncodeAll(rows)|)
  {
    ParseEncoded(rows, tail);
    assert rows + [] == rows;
  }

  lemma ParseEncodeAll(rows: seq<Row>)
    requires AllFit(rows)
    ensures Parse(EncodeAll(rows)) == Parsed(rows, |EncodeAll(rows)|)
  {
    ParseUnique(rows, []);
    assert EncodeAll(rows) + [] == EncodeAll(rows);
  }

  // A log reads back as what was written exactly when all its rows fit.
  lemma ReadsBackExactlyWhen(rows: seq<Row>)
    ensures Parse(EncodeAll(rows)).rows == rows <==> AllFit(rows)
  {
    hide Parse, EncodeAll, Fits;
    ParseSound(EncodeAll(rows));
    if AllFit(rows) {
      ParseEncodeAll(rows);
    }
  }

  // A concatenation of encodings determines its rows.
  lemma EncodeAllInjective(a: seq<Row>, b: seq<Row>)
    requires AllFit(a) && AllFit(b) && EncodeAll(a) == EncodeAll(b)
    ensures a == b
  {
    ParseEncodeAll(a);
    ParseEncodeAll(b);
  }

  // Parsing what came first and keeping the leftover bytes loses nothing of what comes later.
  lemma ParseInTwo(first: Bytes, second: Bytes)
    ensures var p, q := Parse(first), Parse(first[Parse(first).used..] + second);
            Parse(first + second) == Parsed(p.rows + q.rows, p.used + q.used)
  {
    hide Decode, Encode;
    var p := Parse(first);
    ParseSound(first);
    ParseEncoded(p.rows, first[p.used..] + second);
    assert first + second == EncodeAll(p.rows) + (first[p.used..] + second);
  }

  // Torn tail: complete rows followed by any proper prefix of one more row.
  lemma ParseTornTail(rows: seq<Row>, torn: Row, k: nat)
    requires AllFit(rows) && Fits(torn) && k < |Encode(torn)|
    ensures Parse(EncodeAll(rows) + Encode(torn)[..k]) == Parsed(rows, |EncodeAll(rows)|)
  {
    hide Decode, Encode;
    TornRowDoesNotDecode(torn, k);
    ParseUnique(rows, Encode(torn)[..k]);
  }

  // Any byte prefix of a log parses to a row prefix of it.
  lemma {:induction false} ParsePrefix(rows: seq<Row>, k: nat) returns (m: nat)
    requires AllFit(rows) && k <= |EncodeAll(rows)|
    ensures m <= |rows|
    ensures Parse(EncodeAll(rows)[..k]).rows == rows[..m]
    ensures |EncodeAll(rows[..m])| <= k
    ensures m < |rows| ==> k < |EncodeAll(rows[..m + 1])|
  {
    hide Decode, Encode;
    if rows == [] {
      m := 0;
    } else {
      var r, rest := rows[0], rows[1..];
      if k < |Encode(r)| {
        m := 0;
        assert EncodeAll(rows)[..k] == Encode(r)[..k];
        TornRowDoesNotDecode(r, k);
        assert rows[..1] == [r];
        EncodeAllOne(r);
      } else {
        var m' := ParsePrefix(rest, k - |Encode(r)|);
        m := m' + 1;
        var cut := EncodeAll(rest)[..k - |Encode(r)|];
        assert EncodeAll(rows)[..k] == Encode(r) + cut;
        ParseCons(r, cut);
        PrefixCons(r, rest, m');
        if m < |rows| {
          PrefixCons(r, rest, m);
        }
        assert rows == [r] + rest;
      }
    }
  }

  lemma PrefixCons(r: Row, rest: seq<Row>, m: nat)
    requires m <= |rest|
    ensures ([r] + rest)[..m + 1] == [r] + rest[..m]
    ensures |EncodeAll(([r] + rest)[..m + 1])| == |Encode(r)| + |EncodeAll(rest[..m])|
  {
    hide Decode, Encode;
    assert ([r] + rest[..m])[1..] == rest[..m];
    assert ([r] + rest)[..m + 1] == [r] + rest[..m];
  }

  // A longer row prefix never encodes shorter, so a byte count between two of them is ordered too.
  lemma EncodeAllMonotone(rows: seq<Row>, j: nat, k: nat)
    requires j <= k <= |rows|
    ensures |EncodeAll(rows[..k])| >= |EncodeAll(rows[..j])| + 11 * (k - j)
    decreases k - j
  {
    hide Decode, Encode;
    if j < k {
      EncodeAllMonotone(rows, j, k - 1);
      assert rows[..k] == rows[..k - 1] + [rows[k - 1]];
      EncodeAllConcat(rows[..k - 1], [rows[k - 1]]);
      EncodeAllOne(rows[k - 1]);
    }
  }

  /* ---------- The reader ---------- */

  // What one call of the underlying reader delivers: some bytes, and whether it can go on.
  datatype Status = More | End | Failed
  datatype Chunk = Chunk(bytes: Bytes, status: Status)

  // The bytes delivered before the reader stops; a reader with nothing left reports the end.
  function Delivered(chunks: seq<Chunk>): (s: Bytes)
  {
    if chunks == [] then []
    else if chunks[0].status != More then chunks[0].bytes
    else chunks[0].bytes + Delivered(chunks[1..])
  }

  predicate ReadsToEnd(chunks: seq<Chunk>)
  {
    chunks == [] || chunks[0].status == End || (chunks[0].status == More && ReadsToEnd(chunks[1..]))
  }

  // `read`: however the bytes are cut into chunks, the rows are those of the greedy parse of all of them.
  method Read(chunks: seq<Chunk>) returns (rows: seq<Row>, ok: bool)
    ensures ok <==> ReadsToEnd(chunks)
    ensures rows == Parse(Delivered(chunks)).rows
  {
    hide Decode, Encode, Parse;
    rows := [];
    var leftover: Bytes := [];
    ghost var total := Parse(Delivered(chunks)).rows;
    assert [] + Delivered(chunks) == Delivered(chunks);
    assert total == [] + total;
    var i := 0;
    while i < |chunks|
      invariant 0 <= i <= |chunks|
      invariant Decode(leftover).None?
      invariant ReadsToEnd(chunks) <==> ReadsToEnd(chunks[i..])
      invariant total == rows + Parse(leftover + Delivered(chunks[i..])).rows
    {
      var chunk := chunks[i];
      ghost var later := if chunk.status == More then Delivered(chunks[i + 1..]) else [];
      assert chunks[i..][1..] == chunks[i + 1..];
      assert leftover + Delivered(chunks[i..]) == leftover + chunk.bytes + later;
      if |chunk.bytes| > 0 {
        leftover := leftover + chunk.bytes;
        var taken, used := TakeRows(leftover);
        ParseInTwo(leftover, later);
        rows := rows + taken;
        leftover := leftover[used..];
        assert total == rows + Parse(leftover + later).rows;
      } else {
        assert leftover + chunk.bytes == leftover;
      }
      if chunk.status == End {
        break;
      }
      if chunk.status == Failed {
        ParseRest(leftover, rows);
        return rows, false;
      }
      i := i + 1;
    }
    ParseRest(leftover, rows);
    // The final pass over the leftover never finds a row.
    var tail, used := TakeRows(leftover);
    ParseNothing(leftover);
    assert tail == [];
    rows := rows + tail;
    return rows, true;
  }

  lemma ParseRest(leftover: Bytes, rows: seq<Row>)
    requires Decode(leftover).None?
    ensures rows + Parse(leftover + []).rows == rows
  {
    hide Decode, Encode;
    assert leftover + [] == leftover;
    assert rows + [] == rows;
  }

  // The inner loop of `read`: takes whole rows off the front of the buffer.
  method TakeRows(buf: Bytes) returns (rows: seq<Row>, offset: nat)
    ensures Parsed(rows, offset) == Parse(buf)
    ensures offset <= |buf| && Decode(buf[offset..]).None?
  {
    hide Decode, Encode, Layout;
    rows, offset := [], 0;
    assert buf[0..] == buf;
    assert [] + Parse(buf).rows == Parse(buf).rows;
    while offset < |buf|
      invariant offset <= |buf|
      invariant Parse(buf) == Parsed(rows + Parse(buf[offset..]).rows, offset + Parse(buf[offset..]).used)
    {
      var res := Unmarshal(buf[offset..]);
      match res
      case Err(e) =>
        if e == Eof {
          break;
        }
        // Skipping a corrupted byte: `Unmarshal` never asks for it.
        assert false;
      case Ok((row, n)) =>
        assert buf[offset..][n..] == buf[offset + n..];
        assert rows + ([row] + Parse(buf[offset + n..]).rows) == rows + [row] + Parse(buf[offset + n..]).rows;
        rows := rows + [row];
        offset := offset + n;
    }
    assert rows + [] == rows;
  }

  // How a bytes.Reader over `data` hands out its contents with a buffer of `size` bytes.
  function Chunks(data: Bytes, size: nat): (c: seq<Chunk>)
    requires size > 0
    decreases |data|
  {
    if data == [] then [Chunk([], End)]
    else if |data| <= size then [Chunk(data, More), Chunk([], End)]
    else [Chunk(data[..size], More)] + Chunks(data[size..], size)
  }

  lemma {:induction false} ChunksDeliverAll(data: Bytes, size: nat)
    requires size > 0
    ensures Delivered(Chunks(data, size)) == data && ReadsToEnd(Chunks(data, size))
    decreases |data|
  {
    if |data| > size {
      ChunksDeliverAll(data[size..], size);
      var c := Chunks(data, size);
      assert c[1..] == Chunks(data[size..], size);
      assert data == data[..size] + data[size..];
    } else if data != [] {
      assert Chunks(data, size)[1..] == [Chunk([], End)];
      assert data + [] == data;
    }
  }

  // `read` over a whole buffer, as the callers in this repository use it.
  method ReadBytes(data: Bytes) returns (rows: seq<Row>)
    ensures rows == Parse(data).rows
  {
    ChunksDeliverAll(data, 4096);
    var ok;
    rows, ok := Read(Chunks(data, 4096));
  }
}
