// internal/database/replication/protocol.go: the replication messages,
//   request  [8 bytes LSN, little-endian]
//   response [1 byte flag][4 bytes length][payload].
module Protocol {
  import opened Wrappers
  import opened ByteCodec
  import opened WalRecord
  import opened LogStream

  datatype Response = Data(bytes: Bytes) | Failure(message: Bytes)

  datatype ProtocolError = UnexpectedEnd | InvalidLength

  const OK_FLAG: Byte := 0
  const ERR_FLAG: Byte := 1
  const MAX_PAYLOAD := 0x8000_0000

  // "no new logs" and "lsnID is 0"
  const NO_NEW_LOGS: Bytes := [110, 111, 32, 110, 101, 119, 32, 108, 111, 103, 115]
  const LSN_IS_ZERO: Bytes := [108, 115, 110, 73, 68, 32, 105, 115, 32, 48]

  function Payload(r: Response): (s: Bytes)
  {
    match r
    case Data(d) => d
    case Failure(m) => m
  }

  // The length goes through a 32-bit integer.
  function WriteMessage(r: Response): (s: Bytes)
  {
    [if r.Failure? then ERR_FLAG else OK_FLAG] + PutU32(|Payload(r)| % 0x1_0000_0000) + Payload(r)
  }

  // The length is read as a signed number, and a negative one is refused.
  function ReadMessage(s: Bytes): (r: Result<Response, ProtocolError>)
  {
    if |s| < 5 then Err(UnexpectedEnd)
    else
      var n: nat := GetU32(s[1..5]);
      if n >= MAX_PAYLOAD then Err(InvalidLength)
      else if |s| < 5 + n then Err(UnexpectedEnd)
      else if s[0] == ERR_FLAG then Ok(Failure(s[5..5 + n]))
      else Ok(Data(s[5..5 + n]))
  }

  // A message byte by byte: 1 for a failure and 0 for data, four bytes of length, and the payload.
  predicate Framed(r: Response, s: Bytes)
  {
    && |s| == 5 + |Payload(r)| && s[0] == (if r.Failure? then 1 else 0)
    && BigEndian(s[1..5], |Payload(r)| % 0x1_0000_0000) && s[5..] == Payload(r)
  }

  lemma FramedIsWriteMessage(r: Response, s: Bytes)
    ensures Framed(r, s) <==> s == WriteMessage(r)
  {
    hide PutU32, BigEndian;
    var n := |Payload(r)| % 0x1_0000_0000;
    if s == WriteMessage(r) {
      assert s[1..5] == PutU32(n);
      BigEndianIsPut(s[1..5], n);
    }
    if Framed(r, s) {
      BigEndianIsPut(s[1..5], n);
      assert s == [s[0]] + s[1..5] + s[5..];
    }
  }

  // What a reader accepts, and as what: any flag but 1 stands for data.
  lemma ReadsExactlyWhen(s: Bytes, r: Response)
    ensures ReadMessage(s) == Ok(r) <==>
              var n := |Payload(r)|;
              && n < 0x8000_0000 && 5 + n <= |s| && (s[0] == 1 <==> r.Failure?)
              && BigEndian(s[1..5], n) && s[5..5 + n] == Payload(r)
  {
    hide PutU32, GetU32, BigEndian;
    var n := |Payload(r)|;
    if |s| >= 5 && n < 0x8000_0000 {
      BigEndianIsPut(s[1..5], n);
      U32Reencode(s[1..5]);
      U32RoundTrip(n);
    }
  }

  // The layouts, on one message each.
  lemma MessagesOfOneByte()
    ensures WriteMessage(Data([7])) == [0] + [0, 0, 0, 1] + [7]
    ensures WriteMessage(Failure([7])) == [1] + [0, 0, 0, 1] + [7]
    ensures RequestBytes(258) == [2, 1, 0, 0, 0, 0, 0, 0]
    ensures NO_NEW_LOGS == [110, 111, 32, 110, 101, 119, 32, 108, 111, 103, 115]  // "no new logs"
    ensures LSN_IS_ZERO == [108, 115, 110, 73, 68, 32, 105, 115, 32, 48]          // "lsnID is 0"
  {
    assert PutU32(1) == [0, 0, 0, 1];
    assert PutU32Little(258) == [2, 1, 0, 0] && PutU32Little(0) == [0, 0, 0, 0];
  }

  lemma MessageParts(r: Response, tail: Bytes)
    ensures var s := WriteMessage(r) + tail;
            && s[0] == (if r.Failure? then ERR_FLAG else OK_FLAG)
            && GetU32(s[1..5]) == |Payload(r)| % 0x1_0000_0000
            && s[5..] == Payload(r) + tail
  {
    var s, len := WriteMessage(r) + tail, |Payload(r)| % 0x1_0000_0000;
    U32RoundTrip(len);
    assert s[1..5] == PutU32(len);
    assert s[5..] == Payload(r) + tail;
  }

  // A framed response, whatever follows it, is read back as itself exactly when its payload is below 2^31 bytes.
  lemma FramingRoundTrip(r: Response, tail: Bytes)
    ensures ReadMessage(WriteMessage(r) + tail) == Ok(r) <==> |Payload(r)| < MAX_PAYLOAD
  {
    hide GetU32, PutU32;
    MessageParts(r, tail);
    var s := WriteMessage(r) + tail;
    if |Payload(r)| < MAX_PAYLOAD {
      assert s[5..5 + |Payload(r)|] == s[5..][..|Payload(r)|] == Payload(r);
    } else {
      FramedPayloadIsShort(s);
    }
  }

  lemma FramedPayloadIsShort(s: Bytes)
    ensures ReadMessage(s).Ok? ==> |Payload(ReadMessage(s).value)| < MAX_PAYLOAD
  {
  }

  // 2^31 bytes of data are announced with a negative length; 2^32 bytes arrive as an empty reply.
  lemma OversizedReplies()
    ensures ReadMessage(WriteMessage(Data(seq(0x8000_0000, _ => 0)))) == Err(InvalidLength)
    ensures ReadMessage(WriteMessage(Data(seq(0x1_0000_0000, _ => 0)))) == Ok(Data([]))
  {
    OversizedReply(Data(seq(0x8000_0000, _ => 0)));
    OversizedReply(Data(seq(0x1_0000_0000, _ => 0)));
  }

  lemma OversizedReply(r: Response)
    requires r.Data?
    ensures |r.bytes| == 0x8000_0000 ==> ReadMessage(WriteMessage(r)) == Err(InvalidLength)
    ensures |r.bytes| == 0x1_0000_0000 ==> ReadMessage(WriteMessage(r)) == Ok(Data([]))
  {
    hide GetU32, PutU32;
    MessageParts(r, []);
    assert WriteMessage(r) + [] == WriteMessage(r);
    assert WriteMessage(r)[5..5] == [];
  }

  // A message cut short is refused, not misread.
  lemma CutMessageIsRefused(r: Response, k: nat)
    requires |Payload(r)| < MAX_PAYLOAD && k < |WriteMessage(r)|
    ensures ReadMessage(WriteMessage(r)[..k]) == Err(UnexpectedEnd)
  {
    hide GetU32, PutU32;
    MessageParts(r, []);
    assert WriteMessage(r) + [] == WriteMessage(r);
    if k >= 5 {
      assert WriteMessage(r)[..k][1..5] == WriteMessage(r)[1..5];
    }
  }

  // Rows in, rows out: flattened, framed, unframed and parsed by the slave's reader.
  lemma EndToEnd(rows: seq<Row>, tail: Bytes)
    requires AllFit(rows) && |EncodeAll(rows)| < MAX_PAYLOAD
    ensures ReadMessage(WriteMessage(Data(EncodeAll(rows))) + tail) == Ok(Data(EncodeAll(rows)))
    ensures Parse(EncodeAll(rows)).rows == rows
  {
    hide Parse, EncodeAll, ReadMessage, WriteMessage;
    FramingRoundTrip(Data(EncodeAll(rows)), tail);
    ParseEncodeAll(rows);
  }

  // `ConnTarget.Write`: flattens the rows and frames them.
  method WriteRows(rows: seq<Row>) returns (res: Result<Bytes, MarshalError>)
    ensures res.Ok? <==> Encodable(rows)
    ensures res.Ok? ==> res.value == WriteMessage(Data(EncodeAll(rows)))
  {
    hide Encode, WriteMessage, Layout;
    var buf: Bytes := [];
    for i := 0 to |rows|
      invariant forall j :: 0 <= j < i ==> Marshalable(rows[j])
      invariant buf == EncodeAll(rows[..i])
    {
      var b := Marshal(rows[i]);
      if b.Err? {
        return Err(b.error);
      }
      EncodeAllSplit(rows[..i + 1], i);
      assert rows[..i + 1][..i] == rows[..i] && rows[..i + 1][i..] == [rows[i]];
      EncodeAllOne(rows[i]);
      buf := buf + b.value;
    }
    assert rows[..|rows|] == rows;
    return Ok(WriteMessage(Data(buf)));
  }

  // The rows in a reply; none in an error, an empty or an unreadable one.
  function RepliedRows(message: Bytes): (rows: seq<Row>)
  {
    match ReadMessage(message)
    case Ok(Data(d)) => Parse(d).rows
    case _ => []
  }

  /* ---------- Requests ---------- */

  function RequestBytes(lsn: U64): (s: Bytes)
    ensures |s| == 8
  {
    PutU64Little(lsn)
  }

  function ReadRequest(data: Bytes): (lsn: Option<U64>)
  {
    if |data| < 8 then None else Some(GetU64Little(data[..8]))
  }

  // The least significant byte first, both ways.
  lemma RequestLayout(data: Bytes, lsn: U64)
    ensures ReadRequest(data) == Some(lsn) <==> |data| >= 8 && LittleEndian(data[..8], lsn)
    ensures data == RequestBytes(lsn) <==> |data| == 8 && LittleEndian(data, lsn)
  {
    hide PutU64Little, GetU64Little, LittleEndian;
    U64LittleRoundTrip(lsn);
    if |data| >= 8 {
      LittleEndianIsPut(data[..8], lsn);
      U64LittleReencode(data[..8]);
      assert |data| == 8 ==> data[..8] == data;
    }
  }

  lemma RequestRoundTrip(lsn: U64, tail: Bytes)
    ensures ReadRequest(RequestBytes(lsn) + tail) == Some(lsn)
  {
    hide GetU64Little, PutU64Little;
    assert (RequestBytes(lsn) + tail)[..8] == RequestBytes(lsn);
    U64LittleRoundTrip(lsn);
  }
}
