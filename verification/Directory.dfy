// utils/fs/dir.go: listings of the log directory. A listing is sorted by name, and names compare byte by byte.
module Directory {
  import opened ByteCodec

  type Name = Bytes

  // Go's `<` on strings.
  predicate Less(a: Name, b: Name)
  {
    b != [] && (a == [] || a[0] < b[0] || (a[0] == b[0] && Less(a[1..], b[1..])))
  }

  predicate Ascending(names: seq<Name>)
  {
    forall i, j :: 0 <= i < j < |names| ==> Less(names[i], names[j])
  }

  lemma {:induction false} LessIrreflexive(a: Name)
    ensures !Less(a, a)
  {
    if a != [] {
      LessIrreflexive(a[1..]);
    }
  }

  lemma {:induction false} LessTransitive(a: Name, b: Name, c: Name)
    requires Less(a, b) && Less(b, c)
    ensures Less(a, c)
  {
    if a != [] && a[0] == b[0] == c[0] {
      LessTransitive(a[1..], b[1..], c[1..]);
    }
  }

  lemma {:induction false} LessTotal(a: Name, b: Name)
    ensures Less(a, b) || a == b || Less(b, a)
  {
    if a != [] && b != [] && a[0] == b[0] {
      LessTotal(a[1..], b[1..]);
      assert a == [a[0]] + a[1..] && b == [b[0]] + b[1..];
    }
  }

  lemma AscendingAppend(names: seq<Name>, name: Name)
    requires Ascending(names) && |names| > 0 && Less(names[|names| - 1], name)
    ensures Ascending(names + [name])
  {
    hide Less;
    var all, k := names + [name], |names| - 1;
    forall i, j | 0 <= i < j < |all| ensures Less(all[i], all[j]) {
      if j == k + 1 && i < k {
        LessTransitive(names[i], names[k], name);
      }
    }
  }

  method BinarySearch(names: seq<Name>, target: Name) returns (index: int)
    requires Ascending(names)
    ensures index == -1 <==> target !in names
    ensures index != -1 ==> 0 <= index < |names| && names[index] == target
  {
    var low, high := 0, |names| - 1;
    while low <= high
      invariant 0 <= low <= high + 1 <= |names|
      invariant forall i :: 0 <= i < low ==> names[i] != target
      invariant forall i :: high < i < |names| ==> names[i] != target
    {
      var mid := (low + high) / 2;
      if names[mid] == target {
        return mid;
      } else if Less(names[mid], target) {
        forall i | 0 <= i <= mid ensures names[i] != target {
          if i < mid && names[i] == target {
            LessTransitive(target, names[mid], target);
            LessIrreflexive(target);
          }
        }
        low := mid + 1;
      } else {
        assert forall i :: mid < i < |names| ==> Less(names[mid], names[i]);
        high := mid - 1;
      }
    }
    return -1;
  }

  // The part of a listing from `target` on; nothing when it is absent, everything when no target is given.
  function ListFrom(names: seq<Name>, target: Name): (r: seq<Name>)
    ensures |r| <= |names| && r == names[|names| - |r|..]
  {
    if target == [] || names == [] || names[0] == target then names else ListFrom(names[1..], target)
  }

  lemma {:induction false} ListFromAt(names: seq<Name>, target: Name, index: nat)
    requires Ascending(names) && target != [] && index < |names| && names[index] == target
    ensures ListFrom(names, target) == names[index..]
  {
    if index > 0 {
      LessIrreflexive(target);
      ListFromAt(names[1..], target, index - 1);
      assert names[1..][index - 1..] == names[index..];
    }
  }

  lemma {:induction false} ListFromAbsent(names: seq<Name>, target: Name)
    requires target != [] && target !in names
    ensures ListFrom(names, target) == []
  {
    if names != [] {
      ListFromAbsent(names[1..], target);
    }
  }

  lemma NothingBefore(names: seq<Name>, target: Name)
    requires Ascending(names)
    ensures forall i :: 0 <= i < |names| && target != [] && names[i] == target ==> ListFrom(names, target) == names[i..]
  {
    forall i | 0 <= i < |names| && target != [] && names[i] == target ensures ListFrom(names, target) == names[i..] {
      ListFromAt(names, target, i);
    }
  }

  method ReadDirsFrom(names: seq<Name>, target: Name) returns (r: seq<Name>)
    requires Ascending(names)
    ensures r == ListFrom(names, target)
    ensures target == [] ==> r == names
    ensures target != [] && target !in names ==> r == []
    ensures forall i :: 0 <= i < |names| && target != [] && names[i] == target ==> r == names[i..]
  {
    NothingBefore(names, target);
    if |names| == 0 {
      return [];
    }
    if target == [] {
      return names;
    }
    var index := BinarySearch(names, target);
    if index == -1 {
      ListFromAbsent(names, target);
      return [];
    }
    ListFromAt(names, target, index);
    return names[index..];
  }

  /* ---------- Segment names ---------- */

  function Digits(n: nat): (s: Bytes)
    ensures |s| > 0
  {
    if n < 10 then [48 + n] else Digits(n / 10) + [48 + n % 10]
  }

  const SUFFIX: Bytes := [46, 98, 105, 110]  // ".bin"

  // The file created when the clock shows `micros`.
  function SegmentName(micros: nat): (s: Name)
    ensures |s| > 0
  {
    Digits(micros) + SUFFIX
  }

  lemma {:induction false} LessAppend(a: Name, b: Name, x: Name, y: Name)
    requires Less(a, b) && |a| == |b|
    ensures Less(a + x, b + y)
  {
    if a[0] == b[0] {
      LessAppend(a[1..], b[1..], x, y);
      assert (a + x)[1..] == a[1..] + x && (b + y)[1..] == b[1..] + y;
    }
  }

  lemma {:induction false} LessAfterEqual(p: Name, a: Name, b: Name)
    requires Less(a, b)
    ensures Less(p + a, p + b)
  {
    if p == [] {
      assert p + a == a && p + b == b;
    } else {
      LessAfterEqual(p[1..], a, b);
      assert (p + a)[1..] == p[1..] + a && (p + b)[1..] == p[1..] + b;
    }
  }

  // Later clock readings give later names as long as both have the same number of digits.
  lemma {:induction false} DigitsAscend(m: nat, n: nat)
    requires m < n && |Digits(m)| == |Digits(n)|
    ensures Less(Digits(m), Digits(n))
  {
    if m >= 10 && n >= 10 {
      if m / 10 < n / 10 {
        DigitsAscend(m / 10, n / 10);
        LessAppend(Digits(m / 10), Digits(n / 10), [48 + m % 10], [48 + n % 10]);
      } else {
        assert m / 10 == n / 10 && m % 10 < n % 10;
        LessAfterEqual(Digits(m / 10), [48 + m % 10], [48 + n % 10]);
      }
    }
  }

  // `n` without its last `k` digits.
  function Lead(n: nat, k: nat): (r: nat)
  {
    if k == 0 then n else Lead(n / 10, k - 1)
  }

  lemma {:induction false} LeadingDigits(n: nat, k: nat)
    requires k < |Digits(n)|
    ensures Digits(n)[..|Digits(n)| - k] == Digits(Lead(n, k))
  {
    if k > 0 {
      LeadingDigits(n / 10, k - 1);
    }
  }

  lemma {:induction false} DigitsGrow(m: nat, n: nat)
    requires m <= n
    ensures |Digits(m)| <= |Digits(n)|
  {
    if m >= 10 {
      DigitsGrow(m / 10, n / 10);
    }
  }

  lemma {:induction false} DigitsAboveDot(n: nat, i: nat)
    requires i < |Digits(n)|
    ensures Digits(n)[i] > SUFFIX[0]
  {
    if n >= 10 && i < |Digits(n)| - 1 {
      DigitsAboveDot(n / 10, i);
    }
  }

  // Files list in the order they were made exactly when the earlier reading is at most the leading digits of the
  // later one, as many of them as it has itself.
  lemma NamesAscendExactlyWhen(m: nat, n: nat)
    requires m < n
    ensures |Digits(m)| <= |Digits(n)|
    ensures Less(SegmentName(m), SegmentName(n)) <==> m <= Lead(n, |Digits(n)| - |Digits(m)|)
  {
    hide Less, Digits, Lead;
    DigitsGrow(m, n);
    var k := |Digits(n)| - |Digits(m)|;
    var lead, tail := Lead(n, k), Digits(n)[|Digits(m)|..];
    LeadingDigits(n, k);
    assert SegmentName(n) == Digits(lead) + (tail + SUFFIX);
    if m < lead {
      DigitsAscend(m, lead);
      LessAppend(Digits(m), Digits(lead), SUFFIX, tail + SUFFIX);
    } else if m == lead {
      SuffixBelowDigits(m, n, k);
      LessAfterEqual(Digits(m), SUFFIX, tail + SUFFIX);
    } else {
      DigitsAscend(lead, m);
      LessAppend(Digits(lead), Digits(m), tail + SUFFIX, SUFFIX);
      LessAsymmetric(SegmentName(n), SegmentName(m));
    }
  }

  lemma LessAsymmetric(a: Name, b: Name)
    requires Less(a, b)
    ensures !Less(b, a)
  {
    hide Less;
    if Less(b, a) {
      LessTransitive(a, b, a);
      LessIrreflexive(a);
    }
  }

  // A name that continues with a digit sorts after one that continues with the suffix.
  lemma SuffixBelowDigits(m: nat, n: nat, k: nat)
    requires m < n && k == |Digits(n)| - |Digits(m)| >= 0 && m == Lead(n, k)
    ensures Less(SUFFIX, Digits(n)[|Digits(m)|..] + SUFFIX)
  {
    hide Digits;
    assert k > 0;
    DigitsAboveDot(n, |Digits(m)|);
  }

  // In particular while the clock keeps its number of digits, which microseconds do from 2001 to 2286.
  lemma SegmentNamesAscend(m: nat, n: nat)
    requires m < n && |Digits(m)| == |Digits(n)|
    ensures Less(SegmentName(m), SegmentName(n))
  {
    hide Digits, Less;
    NamesAscendExactlyWhen(m, n);
  }

  // The name itself: the reading in decimal, then ".bin".
  lemma NameOfAReading(n: nat)
    ensures SegmentName(7) == [55, 46, 98, 105, 110]
    ensures SegmentName(10 * n + 7) == (if n == 0 then [] else Digits(n)) + [55, 46, 98, 105, 110]
  {
    assert (10 * n + 7) / 10 == n && (10 * n + 7) % 10 == 7;
    if n > 0 {
      assert Digits(10 * n + 7) == Digits(n) + [55];
    }
  }

  // When the clock gains a digit, either can happen: 10 lists before 9, but 200 after 10.
  lemma GainedDigit()
    ensures Less(SegmentName(10), SegmentName(9))
    ensures Less(SegmentName(10), SegmentName(200))
  {
    assert |Digits(9)| == 1 && |Digits(10)| == 2 && |Digits(200)| == 3 by {
      assert |Digits(1)| == 1 && |Digits(2)| == 1 && |Digits(20)| == 2;
    }
    assert Lead(10, 1) == 1 && Lead(200, 1) == 20 by {
      assert Lead(1, 0) == 1 && Lead(20, 0) == 20;
    }
    hide Digits, Lead, Less;
    NamesAscendExactlyWhen(9, 10);
    NamesAscendExactlyWhen(10, 200);
    LessTotal(SegmentName(9), SegmentName(10));
    NamesDiffer();
  }

  lemma NamesDiffer()
    ensures SegmentName(9) != SegmentName(10)
  {
    assert |Digits(10)| == |Digits(1)| + 1;
  }
}
