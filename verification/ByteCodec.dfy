// Fixed-width unsigned integers as bytes, the primitive both wire formats are built from.
module ByteCodec {

  type Byte = b: int | 0 <= b < 256
  type Bytes = seq<Byte>
  type U16 = x: int | 0 <= x < 0x1_0000
  type U32 = x: int | 0 <= x < 0x1_0000_0000
  type U64 = x: int | 0 <= x < 0x1_0000_0000_0000_0000

  // Big-endian, most significant byte first.

  function PutU16(v: U16): (s: Bytes)
    ensures |s| == 2
  {
    [v / 256, v % 256]
  }

  function GetU16(s: Bytes): (v: U16)
    requires |s| == 2
  {
    256 * (s[0] as int) + s[1]
  }

  function PutU32(v: U32): (s: Bytes)
    ensures |s| == 4
  {
    PutU16(v / 0x1_0000) + PutU16(v % 0x1_0000)
  }

  function GetU32(s: Bytes): (v: U32)
    requires |s| == 4
  {
    0x1_0000 * GetU16(s[..2]) + GetU16(s[2..])
  }

  function PutU64(v: U64): (s: Bytes)
    ensures |s| == 8
  {
    PutU32(v / 0x1_0000_0000) + PutU32(v % 0x1_0000_0000)
  }

  function GetU64(s: Bytes): (v: U64)
    requires |s| == 8
  {
    0x1_0000_0000 * GetU32(s[..4]) + GetU32(s[4..])
  }

  // Little-endian, least significant byte first.

  function PutU16Little(v: U16): (s: Bytes)
    ensures |s| == 2
  {
    [v % 256, v / 256]
  }

  function GetU16Little(s: Bytes): (v: U16)
    requires |s| == 2
  {
    256 * (s[1] as int) + s[0]
  }

  function PutU32Little(v: U32): (s: Bytes)
    ensures |s| == 4
  {
    PutU16Little(v % 0x1_0000) + PutU16Little(v / 0x1_0000)
  }

  function GetU32Little(s: Bytes): (v: U32)
    requires |s| == 4
  {
    GetU16Little(s[..2]) + 0x1_0000 * GetU16Little(s[2..])
  }

  function PutU64Little(v: U64): (s: Bytes)
    ensures |s| == 8
  {
    PutU32Little(v % 0x1_0000_0000) + PutU32Little(v / 0x1_0000_0000)
  }

  function GetU64Little(s: Bytes): (v: U64)
    requires |s| == 8
  {
    GetU32Little(s[..4]) + 0x1_0000_0000 * GetU32Little(s[4..])
  }

  lemma U16RoundTrip(v: U16)
    ensures GetU16(PutU16(v)) == v
  {
  }

  lemma U16Reencode(s: Bytes)
    requires |s| == 2
    ensures PutU16(GetU16(s)) == s
  {
    var v := GetU16(s);
    assert v / 256 == s[0] && v % 256 == s[1];
  }

  lemma U32RoundTrip(v: U32)
    ensures GetU32(PutU32(v)) == v
  {
    var hi, lo := v / 0x1_0000, v % 0x1_0000;
    U16RoundTrip(hi);
    U16RoundTrip(lo);
    assert PutU32(v)[..2] == PutU16(hi) && PutU32(v)[2..] == PutU16(lo);
  }

  lemma U32Reencode(s: Bytes)
    requires |s| == 4
    ensures PutU32(GetU32(s)) == s
  {
    U16Reencode(s[..2]);
    U16Reencode(s[2..]);
    var v := GetU32(s);
    assert v / 0x1_0000 == GetU16(s[..2]) && v % 0x1_0000 == GetU16(s[2..]);
  }

  lemma U64RoundTrip(v: U64)
    ensures GetU64(PutU64(v)) == v
  {
    var hi, lo := v / 0x1_0000_0000, v % 0x1_0000_0000;
    U32RoundTrip(hi);
    U32RoundTrip(lo);
    assert PutU64(v)[..4] == PutU32(hi) && PutU64(v)[4..] == PutU32(lo);
  }

  lemma U64Reencode(s: Bytes)
    requires |s| == 8
    ensures PutU64(GetU64(s)) == s
  {
    U32Reencode(s[..4]);
    U32Reencode(s[4..]);
    var v := GetU64(s);
    assert v / 0x1_0000_0000 == GetU32(s[..4]) && v % 0x1_0000_0000 == GetU32(s[4..]);
  }

  lemma U32LittleRoundTrip(v: U32)
    ensures GetU32Little(PutU32Little(v)) == v
  {
    var hi, lo := v / 0x1_0000, v % 0x1_0000;
    assert PutU32Little(v)[..2] == PutU16Little(lo) && PutU32Little(v)[2..] == PutU16Little(hi);
    assert GetU16Little(PutU16Little(lo)) == lo && GetU16Little(PutU16Little(hi)) == hi;
  }

  lemma U64LittleRoundTrip(v: U64)
    ensures GetU64Little(PutU64Little(v)) == v
  {
    var hi, lo := v / 0x1_0000_0000, v % 0x1_0000_0000;
    U32LittleRoundTrip(hi);
    U32LittleRoundTrip(lo);
    assert PutU64Little(v)[..4] == PutU32Little(lo) && PutU64Little(v)[4..] == PutU32Little(hi);
  }

  lemma U16LittleReencode(s: Bytes)
    requires |s| == 2
    ensures PutU16Little(GetU16Little(s)) == s
  {
    var v := GetU16Little(s);
    assert v % 256 == s[0] && v / 256 == s[1];
  }

  lemma U32LittleReencode(s: Bytes)
    requires |s| == 4
    ensures PutU32Little(GetU32Little(s)) == s
  {
    U16LittleReencode(s[..2]);
    U16LittleReencode(s[2..]);
    var v := GetU32Little(s);
    assert v % 0x1_0000 == GetU16Little(s[..2]) && v / 0x1_0000 == GetU16Little(s[2..]);
  }

  lemma U64LittleReencode(s: Bytes)
    requires |s| == 8
    ensures PutU64Little(GetU64Little(s)) == s
  {
    U32LittleReencode(s[..4]);
    U32LittleReencode(s[4..]);
    hide GetU32Little, PutU32Little;
    var lo, hi := GetU32Little(s[..4]), GetU32Little(s[4..]);
    Halves(lo, hi);
    assert s[..4] + s[4..] == s;
  }

  lemma Halves(lo: U32, hi: U32)
    ensures (lo + 0x1_0000_0000 * hi) % 0x1_0000_0000 == lo && (lo + 0x1_0000_0000 * hi) / 0x1_0000_0000 == hi
  {
  }

  /* ---------- Where each byte goes ---------- */

  function Pow256(k: nat): (p: nat)
    ensures p > 0
  {
    if k == 0 then 1 else 256 * Pow256(k - 1)
  }

  // The most significant byte first.
  predicate BigEndian(s: Bytes, v: nat)
  {
    forall i :: 0 <= i < |s| ==> s[i] == v / Pow256(|s| - 1 - i) % 256
  }

  // The least significant byte first.
  predicate LittleEndian(s: Bytes, v: nat)
  {
    forall i :: 0 <= i < |s| ==> s[i] == v / Pow256(i) % 256
  }

  lemma BigEndianIsPut(s: Bytes, v: nat)
    ensures |s| == 2 && v < 0x1_0000 ==> (BigEndian(s, v) <==> s == PutU16(v))
    ensures |s| == 4 && v < 0x1_0000_0000 ==> (BigEndian(s, v) <==> s == PutU32(v))
    ensures |s| == 8 && v < 0x1_0000_0000_0000_0000 ==> (BigEndian(s, v) <==> s == PutU64(v))
  {
    hide PutU16, PutU32, PutU64, BigEndian;
    if |s| == 2 && v < 0x1_0000 {
      BigEndian16(v);
      SameBytes(s, PutU16(v), v);
    } else if |s| == 4 && v < 0x1_0000_0000 {
      BigEndian32(v);
      SameBytes(s, PutU32(v), v);
    } else if |s| == 8 && v < 0x1_0000_0000_0000_0000 {
      BigEndian64(v);
      SameBytes(s, PutU64(v), v);
    }
  }

  lemma LittleEndianIsPut(s: Bytes, v: U64)
    requires |s| == 8
    ensures LittleEndian(s, v) <==> s == PutU64Little(v)
  {
    hide PutU64Little, LittleEndian;
    LittleEndian64(v);
    SameBytes(s, PutU64Little(v), v);
  }

  lemma SameBytes(s: Bytes, t: Bytes, v: nat)
    requires |s| == |t|
    ensures BigEndian(s, v) && BigEndian(t, v) ==> s == t
    ensures LittleEndian(s, v) && LittleEndian(t, v) ==> s == t
  {
    hide Pow256;
  }

  lemma Powers()
    ensures Pow256(0) == 1 && Pow256(1) == 0x100 && Pow256(2) == 0x1_0000 && Pow256(3) == 0x100_0000
    ensures Pow256(4) == 0x1_0000_0000 && Pow256(5) == 0x100_0000_0000 && Pow256(6) == 0x1_0000_0000_0000
    ensures Pow256(7) == 0x100_0000_0000_0000
  {
    assert Pow256(2) == 0x1_0000;
    assert Pow256(4) == 256 * Pow256(3);
    assert Pow256(6) == 256 * Pow256(5);
  }

  lemma BigEndian16(v: U16)
    ensures BigEndian(PutU16(v), v)
  {
    Powers();
    hide Pow256;
  }

  lemma BigEndian32(v: U32)
    ensures BigEndian(PutU32(v), v)
  {
    FourBytes(v);
    Powers();
    hide Pow256, PutU32;
    var s := PutU32(v);
    assert s[0] == v / Pow256(3) % 256 && s[1] == v / Pow256(2) % 256;
    assert s[2] == v / Pow256(1) % 256 && s[3] == v / Pow256(0) % 256;
  }

  lemma LittleEndian32(v: U32)
    ensures LittleEndian(PutU32Little(v), v)
  {
    FourBytes(v);
    Powers();
    hide Pow256, PutU32Little;
    var s := PutU32Little(v);
    assert s[0] == v / Pow256(0) % 256 && s[1] == v / Pow256(1) % 256;
    assert s[2] == v / Pow256(2) % 256 && s[3] == v / Pow256(3) % 256;
  }

  lemma FourBytes(v: U32)
    ensures PutU32(v) == [v / 0x100_0000, v / 0x1_0000 % 256, v / 256 % 256, v % 256]
    ensures PutU32Little(v) == [v % 256, v / 256 % 256, v / 0x1_0000 % 256, v / 0x100_0000]
  {
    var high, low := v / 0x1_0000, v % 0x1_0000;
    assert v / 256 == low / 256 + 256 * high;
    WithHigherBytes(low / 256, high);
    WithHigherBytes(low, 256 * high);
    assert low / 256 == v / 256 % 256 && low % 256 == v % 256 && high / 256 == v / 0x100_0000;
  }

  lemma BigEndian64(v: U64)
    ensures BigEndian(PutU64(v), v)
  {
    var hi, lo := v / 0x1_0000_0000, v % 0x1_0000_0000;
    BigEndian32(hi);
    BigEndian32(lo);
    hide PutU32, Pow256;
    forall i | 0 <= i < 8 ensures PutU64(v)[i] == v / Pow256(7 - i) % 256 {
      if i < 4 {
        assert PutU64(v)[i] == PutU32(hi)[i];
        UpperBytes(v, 3 - i);
      } else {
        assert PutU64(v)[i] == PutU32(lo)[i - 4];
        LowerBytes(v, 7 - i);
      }
    }
  }

  lemma LittleEndian64(v: U64)
    ensures LittleEndian(PutU64Little(v), v)
  {
    var hi, lo := v / 0x1_0000_0000, v % 0x1_0000_0000;
    LittleEndian32(hi);
    LittleEndian32(lo);
    hide PutU32Little, Pow256;
    forall i | 0 <= i < 8 ensures PutU64Little(v)[i] == v / Pow256(i) % 256 {
      if i < 4 {
        assert PutU64Little(v)[i] == PutU32Little(lo)[i];
        LowerBytes(v, i);
      } else {
        assert PutU64Little(v)[i] == PutU32Little(hi)[i - 4];
        UpperBytes(v, i - 4);
      }
    }
  }

  lemma UpperBytes(v: U64, k: nat)
    requires k < 4
    ensures v / 0x1_0000_0000 / Pow256(k) == v / Pow256(k + 4)
  {
    Powers();
    hide Pow256;
  }

  lemma LowerBytes(v: U64, k: nat)
    requires k < 4
    ensures v % 0x1_0000_0000 / Pow256(k) % 256 == v / Pow256(k) % 256
  {
    Powers();
    hide Pow256;
    var hi, lo := v / 0x1_0000_0000, v % 0x1_0000_0000;
    if k == 0 {
      WithHigherBytes(lo, hi * 0x100_0000);
    } else if k == 1 {
      assert v / 0x100 == lo / 0x100 + 256 * (hi * 0x1_0000);
      WithHigherBytes(lo / 0x100, hi * 0x1_0000);
    } else if k == 2 {
      assert v / 0x1_0000 == lo / 0x1_0000 + 256 * (hi * 0x100);
      WithHigherBytes(lo / 0x1_0000, hi * 0x100);
    } else {
      assert v / 0x100_0000 == lo / 0x100_0000 + 256 * hi;
      WithHigherBytes(lo / 0x100_0000, hi);
    }
  }

  lemma WithHigherBytes(low: nat, high: nat)
    ensures (low + 256 * high) % 256 == low % 256
  {
  }

  lemma Cuts(a: Bytes, b: Bytes, c: Bytes)
    ensures var d := a + b + c;
            d[..|a|] == a && d[|a|..|a| + |b|] == b && d[|a| + |b|..] == c
  {
  }
}
