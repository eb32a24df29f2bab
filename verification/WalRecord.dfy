// internal/database/wal/wal_record.go: a log row and its byte encoding,
//   [8 bytes LSN][1 byte method][2 bytes argument count] then, per argument, [2 bytes length][bytes].
module WalRecord {
  import opened Wrappers
  import opened ByteCodec

  const MAX_U16 := 65535

  // Go strings are byte strings.
  datatype Row = Row(lsn: U64, methodId: Byte, args: seq<Bytes>)

  datatype MarshalError = ArgumentTooLarge

  // `Unmarshal` is written so that it could report other errors; `Eof` is the only one it returns.
  datatype ReadError = Eof | Corrupted

  // The rows `Marshal` accepts.
  predicate Marshalable(r: Row)
  {
    forall i :: 0 <= i < |r.args| ==> |r.args[i]| <= MAX_U16
  }

  // The rows whose argument count also survives its 16-bit field.
  predicate Fits(r: Row)
  {
    |r.args| <= MAX_U16 && Marshalable(r)
  }

  predicate DistinctLsns(rows: seq<Row>)
  {
    forall i, j :: 0 <= i < j < |rows| ==> rows[i].lsn != rows[j].lsn
  }

  predicate InLsnOrder(rows: seq<Row>)
  {
    forall i, j :: 0 <= i < j < |rows| ==> rows[i].lsn < rows[j].lsn
  }

  // The 16-bit length prefix; `Marshal` refuses an argument whose length does not fit it.
  function Len16(a: Bytes): (s: Bytes)
    ensures |s| == 2
  {
    PutU16(|a| % 0x1_0000)
  }

  function EncodeArgs(args: seq<Bytes>): (s: Bytes)
  {
    if args == [] then [] else Len16(args[0]) + args[0] + EncodeArgs(args[1..])
  }

  function Encode(r: Row): (s: Bytes)
    ensures |s| == 11 + |EncodeArgs(r.args)|
  {
    PutU64(r.lsn) + [r.methodId] + PutU16(|r.args| % 0x1_0000) + EncodeArgs(r.args)
  }

  // Puts arguments already read, which took `used` bytes, in front of those of `d`.
  function Prefixed(args: seq<Bytes>, used: nat, d: Option<(seq<Bytes>, nat)>): (r: Option<(seq<Bytes>, nat)>)
  {
    match d
    case None => None
    case Some((rest, n)) => Some((args + rest, used + n))
  }

  // Reads `count` length-prefixed arguments; None when the bytes run out.
  function DecodeArgs(data: Bytes, count: nat): (d: Option<(seq<Bytes>, nat)>)
    ensures d.Some? ==> d.value.1 <= |data| && |d.value.0| == count
    decreases count
  {
    if count == 0 then Some(([], 0))
    else if |data| < 2 then None
    else
      var n: nat := GetU16(data[..2]);
      if |data| < 2 + n then None
      else Prefixed([data[2..2 + n]], 2 + n, DecodeArgs(data[2 + n..], count - 1))
  }

  // Reads one row from the front of `data`: the row and the number of bytes it took.
  function Decode(data: Bytes): (d: Option<(Row, nat)>)
    ensures d.Some? ==> 11 <= d.value.1 <= |data| && |d.value.0.args| <= MAX_U16
  {
    if |data| < 11 then None
    else
      match DecodeArgs(data[11..], GetU16(data[9..11]))
      case None => None
      case Some((args, used)) => Some((Row(GetU64(data[..8]), data[8], args), 11 + used))
  }

  lemma PrefixedTwice(args: seq<Bytes>, used: nat, a: Bytes, n: nat, d: Option<(seq<Bytes>, nat)>)
    ensures Prefixed(args, used, Prefixed([a], n, d)) == Prefixed(args + [a], used + n, d)
  {
    if d.Some? {
      assert args + ([a] + d.value.0) == args + [a] + d.value.0;
    }
  }

  lemma DecodeArgsStep(len: Bytes, a: Bytes, rest: Bytes, count: nat)
    requires |len| == 2 && GetU16(len) == |a|
    ensures DecodeArgs(len + a + rest, count + 1) == Prefixed([a], 2 + |a|, DecodeArgs(rest, count))
  {
    Cuts(len, a, rest);
  }

  lemma PrefixedByNothing(d: Option<(seq<Bytes>, nat)>)
    ensures Prefixed([], 0, d) == d
  {
    if d.Some? {
      assert [] + d.value.0 == d.value.0;
    }
  }

  // One turn of the argument loop at byte `pos`, with `count` arguments to go.
  lemma DecodeArgsAt(data: Bytes, pos: nat, count: nat)
    requires pos <= |data|
    ensures count == 0 ==> DecodeArgs(data[pos..], count) == Some(([], 0))
    ensures count > 0 && |data| < pos + 2 ==> DecodeArgs(data[pos..], count) == None
    ensures count > 0 && pos + 2 <= |data| ==>
              var n: nat := GetU16(data[pos..pos + 2]);
              DecodeArgs(data[pos..], count) ==
              if |data| < pos + 2 + n then None
              else Prefixed([data[pos + 2..pos + 2 + n]], 2 + n, DecodeArgs(data[pos + 2 + n..], count - 1))
  {
    if count > 0 && pos + 2 <= |data| {
      assert data[pos..][..2] == data[pos..pos + 2];
      var n: nat := GetU16(data[pos..pos + 2]);
      if pos + 2 + n <= |data| {
        assert data[pos..][2..2 + n] == data[pos + 2..pos + 2 + n];
        assert data[pos..][2 + n..] == data[pos + 2 + n..];
      }
    }
  }

  /* ---------- The methods ---------- */

  method Marshal(r: Row) returns (res: Result<Bytes, MarshalError>)
    ensures res.Ok? <==> Marshalable(r)
    ensures res.Ok? ==> res.value == Encode(r) && Layout(r, res.value)
  {
    LayoutIsEncode(r, Encode(r));
    hide Layout;
    var buf: Bytes := PutU64(r.lsn);
    buf := buf + [r.methodId];
    buf := buf + PutU16(|r.args| % 0x1_0000);
    for i := 0 to |r.args|
      invariant buf + EncodeArgs(r.args[i..]) == Encode(r)
      invariant forall j :: 0 <= j < i ==> |r.args[j]| <= MAX_U16
    {
      var b := r.args[i];
      if |b| > MAX_U16 {
        return Err(ArgumentTooLarge);
      }
      assert r.args[i..][1..] == r.args[i + 1..];
      buf := buf + Len16(b);
      buf := buf + b;
    }
    return Ok(buf);
  }

  method Unmarshal(data: Bytes) returns (res: Result<(Row, nat), ReadError>)
    ensures res.Err? ==> res.error == Eof
    ensures res.Ok? <==> Decode(data).Some?
    ensures res.Ok? ==> res.value == Decode(data).value && Layout(res.value.0, data[..res.value.1])
  {
    if Decode(data).Some? {
      DecodesExactlyWhen(data, Decode(data).value.0, Decode(data).value.1);
    }
    hide Layout;
    if |data| < 8 {
      return Err(Eof);
    }
    var lsn := GetU64(data[..8]);
    if |data| < 9 {
      return Err(Eof);
    }
    var methodId := data[8];
    if |data| < 11 {
      return Err(Eof);
    }
    var args := UnmarshalArgs(data, 11, GetU16(data[9..11]));
    match args
    case None => return Err(Eof);
    case Some((args, used)) => return Ok((Row(lsn, methodId, args), 11 + used));
  }

  // The argument loop of `Unmarshal`, with its cursor `pos`.
  method UnmarshalArgs(data: Bytes, start: nat, count: nat) returns (res: Option<(seq<Bytes>, nat)>)
    requires start <= |data|
    ensures res == DecodeArgs(data[start..], count)
  {
    hide DecodeArgs;
    var pos := start;
    var args: seq<Bytes> := [];
    PrefixedByNothing(DecodeArgs(data[start..], count));
    for i := 0 to count
      invariant start <= pos <= |data|
      invariant DecodeArgs(data[start..], count) == Prefixed(args, pos - start, DecodeArgs(data[pos..], count - i))
    {
      DecodeArgsAt(data, pos, count - i);
      if |data| - pos < 2 {
        return None;
      }
      var n: nat := GetU16(data[pos..pos + 2]);
      if |data| - pos < 2 + n {
        return None;
      }
      var arg := data[pos + 2..pos + 2 + n];
      PrefixedTwice(args, pos - start, arg, 2 + n, DecodeArgs(data[pos + 2 + n..], count - i - 1));
      args := args + [arg];
      pos := pos + 2 + n;
    }
    DecodeArgsAt(data, pos, 0);
    assert args + [] == args;
    return Some((args, pos - start));
  }

  /* ---------- Decoding inverts encoding ---------- */

  lemma {:induction false} DecodeEncodedArgs(args: seq<Bytes>, tail: Bytes)
    requires forall i :: 0 <= i < |args| ==> |args[i]| <= MAX_U16
    ensures DecodeArgs(EncodeArgs(args) + tail, |args|) == Some((args, |EncodeArgs(args)|))
  {
    if args != [] {
      var a, rest := args[0], args[1..];
      DecodeEncodedArgs(rest, tail);
      assert args == [a] + rest;
      EncodedArgsStep(a, rest, tail);
    }
  }

  lemma EncodedArgsStep(a: Bytes, rest: seq<Bytes>, tail: Bytes)
    requires |a| <= MAX_U16
    ensures EncodeArgs([a] + rest) == Len16(a) + a + EncodeArgs(rest)
    ensures DecodeArgs(EncodeArgs([a] + rest) + tail, |rest| + 1) ==
            Prefixed([a], 2 + |a|, DecodeArgs(EncodeArgs(rest) + tail, |rest|))
  {
    U16RoundTrip(|a|);
    assert ([a] + rest)[1..] == rest;
    assert EncodeArgs([a] + rest) + tail == Len16(a) + a + (EncodeArgs(rest) + tail);
    DecodeArgsStep(Len16(a), a, EncodeArgs(rest) + tail, |rest|);
  }

  // What the decoder reads in the header of an encoded row.
  lemma DecodeHeader(r: Row, tail: Bytes)
    ensures var data := Encode(r) + tail;
            && GetU64(data[..8]) == r.lsn
            && data[8] == r.methodId
            && GetU16(data[9..11]) == |r.args| % 0x1_0000
            && data[11..] == EncodeArgs(r.args) + tail
  {
    var data := Encode(r) + tail;
    assert data[..8] == PutU64(r.lsn);
    U64RoundTrip(r.lsn);
    assert data[9..11] == PutU16(|r.args| % 0x1_0000);
    U16RoundTrip(|r.args| % 0x1_0000);
    assert data[11..] == EncodeArgs(r.args) + tail;
  }

  lemma Associates(a: Bytes, b: Bytes, c: Bytes)
    ensures a + (b + c) == a + b + c
  {
  }

  lemma {:induction false} EncodeArgsConcat(a: seq<Bytes>, b: seq<Bytes>)
    ensures EncodeArgs(a + b) == EncodeArgs(a) + EncodeArgs(b)
  {
    hide Len16;
    if a == [] {
      assert a + b == b;
    } else {
      EncodeArgsConcat(a[1..], b);
      assert (a + b)[1..] == a[1..] + b && (a + b)[0] == a[0];
      Associates(Len16(a[0]) + a[0], EncodeArgs(a[1..]), EncodeArgs(b));
    }
  }

  /* ---------- The layout, byte by byte ---------- */

  // Where the length of argument `j` starts.
  function ArgStart(args: seq<Bytes>, j: nat): (at: nat)
    requires j <= |args|
  {
    if j == 0 then 11 else ArgStart(args, j - 1) + 2 + |args[j - 1]|
  }

  // An argument at its place: two bytes of length and its own bytes.
  predicate ArgAt(a: Bytes, s: Bytes, at: nat)
  {
    at + 2 + |a| <= |s| && BigEndian(s[at..at + 2], |a| % 0x1_0000) && s[at + 2..at + 2 + |a|] == a
  }

  // The first eleven bytes: the LSN, the method, the number of arguments.
  predicate HeaderAt(r: Row, s: Bytes)
  {
    |s| >= 11 && BigEndian(s[..8], r.lsn) && s[8] == r.methodId && BigEndian(s[9..11], |r.args| % 0x1_0000)
  }

  predicate Layout(r: Row, s: Bytes)
  {
    && HeaderAt(r, s) && |s| == ArgStart(r.args, |r.args|)
    && forall j :: 0 <= j < |r.args| ==> ArgAt(r.args[j], s, ArgStart(r.args, j))
  }

  // The encoding of a row is the one byte string with that layout.
  lemma LayoutIsEncode(r: Row, s: Bytes)
    ensures Layout(r, s) <==> s == Encode(r)
  {
    hide Encode, HeaderAt, ArgAt, ArgStart, PutU16, PutU64;
    EncodeHeader(r);
    EncodedSize(r, |r.args|);
    assert r.args[..|r.args|] == r.args;
    forall j | 0 <= j < |r.args| ensures ArgAt(r.args[j], Encode(r), ArgStart(r.args, j)) {
      EncodedArg(r, j);
    }
    if Layout(r, s) {
      SameUpTo(r, s, Encode(r), |r.args|);
      assert s[..|s|] == s && Encode(r)[..|s|] == Encode(r);
    }
  }

  lemma EncodeHeader(r: Row)
    ensures HeaderAt(r, Encode(r))
  {
    hide EncodeArgs, PutU64, PutU16, BigEndian;
    var s, n := Encode(r), |r.args| % 0x1_0000;
    assert s[..8] == PutU64(r.lsn) && s[9..11] == PutU16(n);
    BigEndianIsPut(s[..8], r.lsn);
    BigEndianIsPut(s[9..11], n);
  }

  lemma {:induction false} EncodedSize(r: Row, j: nat)
    requires j <= |r.args|
    ensures 11 + |EncodeArgs(r.args[..j])| == ArgStart(r.args, j)
  {
    if j > 0 {
      EncodedSize(r, j - 1);
      assert r.args[..j] == r.args[..j - 1] + [r.args[j - 1]];
      EncodeArgsConcat(r.args[..j - 1], [r.args[j - 1]]);
      var one: seq<Bytes> := [r.args[j - 1]];
      assert one[1..] == [];
    }
  }

  lemma EncodedArg(r: Row, j: nat)
    requires j < |r.args|
    ensures ArgAt(r.args[j], Encode(r), ArgStart(r.args, j))
  {
    hide ArgStart, PutU64;
    var a, before, after := r.args[j], EncodeArgs(r.args[..j]), EncodeArgs(r.args[j + 1..]);
    EncodedSize(r, j);
    assert r.args == r.args[..j] + r.args[j..];
    EncodeArgsConcat(r.args[..j], r.args[j..]);
    assert r.args[j..][1..] == r.args[j + 1..];
    var header := PutU64(r.lsn) + [r.methodId] + PutU16(|r.args| % 0x1_0000);
    assert EncodeArgs(r.args) == before + (Len16(a) + a + after);
    assert Encode(r) == header + (before + (Len16(a) + a + after));
    hide EncodeArgs, Encode;
    ArgInTheMiddle(header, before, a, after);
  }

  lemma ArgInTheMiddle(header: Bytes, before: Bytes, a: Bytes, after: Bytes)
    ensures ArgAt(a, header + (before + (Len16(a) + a + after)), |header| + |before|)
  {
    hide PutU16, BigEndian;
    var s, at := header + (before + (Len16(a) + a + after)), |header| + |before|;
    assert s[at..] == Len16(a) + a + after;
    assert s[at..at + 2] == s[at..][..2] == Len16(a);
    BigEndianIsPut(s[at..at + 2], |a| % 0x1_0000);
    assert s[at + 2..at + 2 + |a|] == s[at..][2..2 + |a|] == a;
  }

  lemma {:induction false} SameUpTo(r: Row, s: Bytes, t: Bytes, j: nat)
    requires j <= |r.args| && Layout(r, s) && Layout(r, t)
    ensures ArgStart(r.args, j) <= |s| && ArgStart(r.args, j) <= |t|
    ensures s[..ArgStart(r.args, j)] == t[..ArgStart(r.args, j)]
  {
    hide HeaderAt, ArgAt, ArgStart;
    NextArgStart(r.args, j);
    if j == 0 {
      SameHeader(r, s, t);
    } else {
      SameUpTo(r, s, t, j - 1);
      var a, at := r.args[j - 1], ArgStart(r.args, j - 1);
      assert ArgAt(a, s, at) && ArgAt(a, t, at);
      SameArg(a, s, t, at);
    }
  }

  lemma NextArgStart(args: seq<Bytes>, j: nat)
    requires j <= |args|
    ensures ArgStart(args, j) == if j == 0 then 11 else ArgStart(args, j - 1) + 2 + |args[j - 1]|
  {
  }

  lemma SameHeader(r: Row, s: Bytes, t: Bytes)
    requires HeaderAt(r, s) && HeaderAt(r, t)
    ensures |s| >= 11 && |t| >= 11 && s[..11] == t[..11]
  {
    hide BigEndian;
    SameBytes(s[..8], t[..8], r.lsn);
    SameBytes(s[9..11], t[9..11], |r.args| % 0x1_0000);
    assert s[..11] == s[..8] + [s[8]] + s[9..11] && t[..11] == t[..8] + [t[8]] + t[9..11];
  }

  lemma SameArg(a: Bytes, s: Bytes, t: Bytes, at: nat)
    requires ArgAt(a, s, at) && ArgAt(a, t, at) && s[..at] == t[..at]
    ensures at + 2 + |a| <= |s| && at + 2 + |a| <= |t| && s[..at + 2 + |a|] == t[..at + 2 + |a|]
  {
    hide BigEndian;
    SameBytes(s[at..at + 2], t[at..at + 2], |a| % 0x1_0000);
    FrontAndArg(s, at, |a|);
    FrontAndArg(t, at, |a|);
  }

  lemma FrontAndArg(s: Bytes, at: nat, n: nat)
    requires at + 2 + n <= |s|
    ensures s[..at + 2 + n] == s[..at] + s[at..at + 2] + s[at + 2..at + 2 + n]
  {
  }

  // The layout, on one row: LSN 258, SET, "k", "vw".
  lemma EncodingOfOneRow()
    ensures Encode(Row(258, 0, [[107], [118, 119]])) ==
            [0, 0, 0, 0, 0, 0, 1, 2] + [0] + [0, 2] + [0, 1, 107] + [0, 2, 118, 119]
  {
    assert PutU64(258) == [0, 0, 0, 0, 0, 0, 1, 2];
    var args: seq<Bytes> := [[107], [118, 119]];
    assert args[1..] == [[118, 119]];
    assert EncodeArgs([[118, 119]]) == [0, 2, 118, 119] by {
      assert [[118, 119]][1..] == [];
    }
    assert EncodeArgs(args) == [0, 1, 107] + [0, 2, 118, 119];
    hide EncodeArgs, PutU64;
  }

  // The arguments that survive the 16-bit count.
  function Counted(args: seq<Bytes>): (kept: seq<Bytes>)
  {
    args[..|args| % 0x1_0000]
  }

  // What is left of a row once it is encoded: all of it exactly up to 65535 arguments.
  function Kept(r: Row): (k: Row)
    ensures k == r <==> |r.args| <= MAX_U16
  {
    Row(r.lsn, r.methodId, Counted(r.args))
  }

  // Whatever `Marshal` accepts decodes, with any bytes following, to as many of its arguments as the count says.
  lemma DecodeCounted(r: Row, tail: Bytes)
    requires Marshalable(r)
    ensures Decode(Encode(r) + tail) == Some((Kept(r), |Encode(Kept(r))|))
  {
    hide EncodeArgs, DecodeArgs, GetU16, GetU64, PutU16, PutU64;
    var kept, rest := Counted(r.args), r.args[|r.args| % 0x1_0000..];
    DecodeHeader(r, tail);
    assert r.args == kept + rest;
    EncodeArgsConcat(kept, rest);
    assert EncodeArgs(kept) + EncodeArgs(rest) + tail == EncodeArgs(kept) + (EncodeArgs(rest) + tail);
    DecodeEncodedArgs(kept, EncodeArgs(rest) + tail);
  }

  // The codec round trip, with any bytes following, holds exactly when the argument count fits 16 bits.
  lemma DecodeEncode(r: Row, tail: Bytes)
    requires Marshalable(r)
    ensures Decode(Encode(r) + tail) == Some((r, |Encode(r)|)) <==> |r.args| <= MAX_U16
  {
    hide Decode, Encode;
    DecodeCounted(r, tail);
  }

  // Above 65535 arguments `Marshal` still accepts a row, which then loses some and leaves their bytes behind it.
  lemma CountOverflowLosesArguments(r: Row)
    requires Marshalable(r) && |r.args| > MAX_U16
    ensures Decode(Encode(r)).Some?
    ensures var (kept, used) := Decode(Encode(r)).value;
            kept == Kept(r) && |kept.args| < |r.args| && used < |Encode(r)|
  {
    hide Decode, GetU16, PutU16;
    DecodeCounted(r, []);
    assert Encode(r) + [] == Encode(r);
    var n := |r.args| % 0x1_0000;
    assert r.args == Counted(r.args) + r.args[n..];
    EncodeArgsConcat(Counted(r.args), r.args[n..]);
    assert r.args[n..] != [] && EncodeArgs(r.args[n..]) != [];
  }

  /* ---------- Encoding inverts decoding ---------- */

  lemma {:induction false} EncodeDecodedArgs(data: Bytes, count: nat)
    requires DecodeArgs(data, count).Some?
    ensures var (args, used) := DecodeArgs(data, count).value;
            && (forall i :: 0 <= i < |args| ==> |args[i]| <= MAX_U16)
            && EncodeArgs(args) == data[..used]
    decreases count
  {
    if count > 0 {
      var n: nat := GetU16(data[..2]);
      var a := data[2..2 + n];
      EncodeDecodedArgs(data[2 + n..], count - 1);
      var (rest, m) := DecodeArgs(data[2 + n..], count - 1).value;
      assert DecodeArgs(data, count) == Some(([a] + rest, 2 + n + m));
      EncodeArgBefore(data, n, rest, m);
    }
  }

  lemma EncodeArgBefore(data: Bytes, n: nat, rest: seq<Bytes>, m: nat)
    requires 2 + n + m <= |data| && n == GetU16(data[..2]) && EncodeArgs(rest) == data[2 + n..][..m]
    ensures EncodeArgs([data[2..2 + n]] + rest) == data[..2 + n + m]
  {
    hide DecodeArgs, EncodeArgs, GetU16, PutU16;
    EncodedArgsStep(data[2..2 + n], rest, []);
    U16Reencode(data[..2]);
    LengthAndRest(data, n, m);
  }

  lemma LengthAndRest(data: Bytes, n: nat, m: nat)
    requires 2 + n + m <= |data|
    ensures data[..2] + data[2..2 + n] + data[2 + n..][..m] == data[..2 + n + m]
  {
  }

  lemma EncodeByParts(r: Row, data: Bytes, n: nat)
    requires 11 <= n <= |data| && |r.args| <= MAX_U16
    requires PutU64(r.lsn) == data[..8] && r.methodId == data[8] && PutU16(|r.args|) == data[9..11]
    requires EncodeArgs(r.args) == data[11..][..n - 11]
    ensures Encode(r) == data[..n]
  {
    hide EncodeArgs, PutU16, PutU64;
    assert Encode(r) == data[..8] + [data[8]] + data[9..11] + data[11..][..n - 11];
    HeaderAndRest(data, n);
  }

  lemma HeaderAndRest(data: Bytes, n: nat)
    requires 11 <= n <= |data|
    ensures data[..8] + [data[8]] + data[9..11] + data[11..][..n - 11] == data[..n]
  {
  }

  // Re-encoding whatever was decoded gives back the very bytes that were consumed.
  lemma EncodeDecode(data: Bytes)
    requires Decode(data).Some?
    ensures var (r, n) := Decode(data).value;
            Fits(r) && Encode(r) == data[..n]
  {
    var (r, n) := Decode(data).value;
    EncodeDecodedArgs(data[11..], GetU16(data[9..11]));
    U64Reencode(data[..8]);
    U16Reencode(data[9..11]);
    EncodeByParts(r, data, n);
  }

  // What is read is what is laid out at the front, and nothing else.
  lemma DecodesExactlyWhen(data: Bytes, r: Row, n: nat)
    ensures Decode(data) == Some((r, n)) <==> n <= |data| && Fits(r) && Layout(r, data[..n])
  {
    hide Decode, Encode, Layout;
    if Decode(data) == Some((r, n)) {
      EncodeDecode(data);
      LayoutIsEncode(r, data[..n]);
    }
    if n <= |data| && Fits(r) && Layout(r, data[..n]) {
      LayoutIsEncode(r, data[..n]);
      assert data == Encode(r) + data[n..];
      DecodeEncode(r, data[n..]);
    }
  }

  /* ---------- Consequences ---------- */

  // A row that decodes is not disturbed by bytes that arrive later.
  lemma DecodeIsStable(data: Bytes, more: Bytes)
    requires Decode(data).Some?
    ensures Decode(data + more) == Decode(data)
  {
    EncodeDecode(data);
    var (r, n) := Decode(data).value;
    assert data + more == Encode(r) + (data[n..] + more);
    DecodeEncode(r, data[n..] + more);
  }

  // No proper prefix of an encoding decodes: a torn row is never mistaken for a shorter one.
  lemma TornRowDoesNotDecode(r: Row, k: nat)
    requires Fits(r) && k < |Encode(r)|
    ensures Decode(Encode(r)[..k]).None?
  {
    hide Encode, Decode;
    var torn := Encode(r)[..k];
    if Decode(torn).Some? {
      DecodeIsStable(torn, Encode(r)[k..]);
      assert torn + Encode(r)[k..] == Encode(r) + [];
      DecodeEncode(r, []);
    }
  }

  // Encodings are prefix-free, so a concatenation splits in one way only.
  lemma EncodeIsPrefixFree(a: Row, b: Row, s: Bytes, t: Bytes)
    requires Fits(a) && Fits(b)
    requires Encode(a) + s == Encode(b) + t
    ensures a == b && s == t
  {
    DecodeEncode(a, s);
    DecodeEncode(b, t);
    assert s == (Encode(a) + s)[|Encode(a)|..];
    assert t == (Encode(b) + t)[|Encode(b)|..];
  }
}
