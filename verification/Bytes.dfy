/** Byte strings, the byte order used to sort directory names, and fixed-width integers. */
module Bytes {

  type Byte = x: int | 0 <= x < 256

  type Bytes = seq<Byte>

  const SLASH: Byte := 47

  /** A text of ASCII characters as bytes. */
  function Ascii(s: string): (b: Bytes)
    requires forall i :: 0 <= i < |s| ==> s[i] < '\U{80}'
    ensures |b| == |s|
  {
    seq(|s|, i requires 0 <= i < |s| => s[i] as int)
  }

  function Power256(width: nat): (p: nat)
    ensures p > 0
  {
    if width == 0 then 1 else 256 * Power256(width - 1)
  }

  /** The `to_le_bytes` of an unsigned integer of `width` bytes. */
  function LittleEndian(n: nat, width: nat): (b: Bytes)
    ensures |b| == width
  {
    if width == 0 then [] else [n % 256] + LittleEndian(n / 256, width - 1)
  }

  function FromLittleEndian(b: Bytes): nat
  {
    if b == [] then 0 else b[0] + 256 * FromLittleEndian(b[1..])
  }

  lemma {:induction false} LittleEndianRoundTrip(n: nat, width: nat)
    requires n < Power256(width)
    ensures FromLittleEndian(LittleEndian(n, width)) == n
  {
    if width > 0 {
      LittleEndianRoundTrip(n / 256, width - 1);
      assert LittleEndian(n, width)[1..] == LittleEndian(n / 256, width - 1);
    }
  }

  /** A number in decimal digits. */
  function Decimal(n: nat): Bytes
  {
    if n < 10 then [48 + n] else Decimal(n / 10) + [48 + n % 10]
  }

  predicate IsDigit(b: Byte) { 48 <= b <= 57 }

  lemma {:induction false} DecimalDigits(n: nat)
    requires n > 0
    ensures Decimal(n) != [] && 49 <= Decimal(n)[0] <= 57
    ensures forall i :: 0 <= i < |Decimal(n)| ==> IsDigit(Decimal(n)[i])
  {
    if n >= 10 {
      DecimalDigits(n / 10);
    }
  }

  /** `int` of decimal digits. */
  function ParseDecimal(digits: Bytes): int
  {
    if digits == [] then 0 else 10 * ParseDecimal(digits[..|digits| - 1]) + digits[|digits| - 1] - 48
  }

  lemma {:induction false} DecimalRoundTrip(n: nat)
    ensures ParseDecimal(Decimal(n)) == n
    ensures Decimal(n) != [] && forall i :: 0 <= i < |Decimal(n)| ==> IsDigit(Decimal(n)[i])
  {
    var d := Decimal(n);
    if n >= 10 {
      DecimalRoundTrip(n / 10);
    }
    assert d[..|d| - 1] == if n < 10 then [] else Decimal(n / 10);
  }

  lemma {:induction false} DigitsDecimal(digits: Bytes)
    requires digits != [] && 49 <= digits[0] <= 57 && forall i :: 0 <= i < |digits| ==> IsDigit(digits[i])
    ensures ParseDecimal(digits) > 0 && Decimal(ParseDecimal(digits)) == digits
  {
    var front, last := digits[..|digits| - 1], digits[|digits| - 1];
    assert digits == front + [last];
    if front != [] {
      DigitsDecimal(front);
    }
  }

  /** Strict lexicographic order on byte strings, the order of `OsString`. */
  predicate Less(a: Bytes, b: Bytes)
  {
    b != [] && (a == [] || a[0] < b[0] || (a[0] == b[0] && Less(a[1..], b[1..])))
  }

  /** The two agree before `k`, and there `a` ends or has the smaller byte. */
  predicate SmallerAt(a: Bytes, b: Bytes, k: nat)
  {
    k <= |a| && k < |b| && a[..k] == b[..k] && (k == |a| || a[k] < b[k])
  }

  lemma SmallerFront(a: Bytes, b: Bytes, k: nat)
    requires SmallerAt(a, b, k)
    ensures k > 0 ==> a != [] && b != [] && a[0] == b[0]
  {
    if k > 0 {
      assert a[..k][0] == a[0] && b[..k][0] == b[0];
    }
  }

  lemma SmallerLater(a: Bytes, b: Bytes, k: nat)
    requires a != [] && b != [] && a[0] == b[0]
    ensures SmallerAt(a, b, k + 1) <==> SmallerAt(a[1..], b[1..], k)
    ensures !SmallerAt(a, b, 0)
  {
    if k < |a| && k + 1 < |b| {
      assert a[..k + 1] == [a[0]] + a[1..][..k] && b[..k + 1] == [b[0]] + b[1..][..k];
    }
  }

  /** The order is decided where two byte strings first differ. */
  lemma {:induction false} LessExactly(a: Bytes, b: Bytes)
    ensures Less(a, b) <==> exists k: nat :: SmallerAt(a, b, k)
  {
    if a != [] && b != [] && a[0] == b[0] {
      LessExactly(a[1..], b[1..]);
      if k: nat :| SmallerAt(a[1..], b[1..], k) {
        SmallerLater(a, b, k);
        assert SmallerAt(a, b, k + 1);
      }
      if k: nat :| SmallerAt(a, b, k) {
        SmallerLater(a, b, if k > 0 then k - 1 else 0);
        assert k > 0 && SmallerAt(a[1..], b[1..], k - 1);
      }
    } else if Less(a, b) {
      assert SmallerAt(a, b, 0);
    } else if k: nat :| SmallerAt(a, b, k) {
      SmallerFront(a, b, k);
    }
  }

  lemma {:induction false} LessIrreflexive(a: Bytes)
    ensures !Less(a, a)
  {
    if a != [] {
      LessIrreflexive(a[1..]);
    }
  }

  lemma {:induction false} LessTransitive(a: Bytes, b: Bytes, c: Bytes)
    requires Less(a, b) && Less(b, c)
    ensures Less(a, c)
  {
    if a != [] && a[0] == b[0] == c[0] {
      LessTransitive(a[1..], b[1..], c[1..]);
    }
  }

  lemma {:induction false} LessTotal(a: Bytes, b: Bytes)
    ensures a == b || Less(a, b) || Less(b, a)
  {
    if a != [] && b != [] && a[0] == b[0] {
      LessTotal(a[1..], b[1..]);
      assert a == [a[0]] + a[1..] && b == [b[0]] + b[1..];
    }
  }

  predicate Distinct(names: seq<Bytes>)
  {
    forall i, j :: 0 <= i < j < |names| ==> names[i] != names[j]
  }

  predicate Ascending(names: seq<Bytes>)
  {
    forall i, j :: 0 <= i < j < |names| ==> Less(names[i], names[j])
  }

  function Insert(name: Bytes, names: seq<Bytes>): (r: seq<Bytes>)
    ensures multiset(r) == multiset(names) + multiset{name}
  {
    if names == [] || Less(name, names[0]) then
      assert [name] + names == [name] + names;
      [name] + names
    else
      assert names == [names[0]] + names[1..];
      [names[0]] + Insert(name, names[1..])
  }

  /** `sort_unstable` on names; with distinct names only one ascending order exists. */
  function Sort(names: seq<Bytes>): (r: seq<Bytes>)
    ensures multiset(r) == multiset(names)
  {
    if names == [] then []
    else
      assert names == [names[0]] + names[1..];
      Insert(names[0], Sort(names[1..]))
  }

  lemma SameMembers(a: seq<Bytes>, b: seq<Bytes>)
    requires multiset(a) == multiset(b)
    ensures forall x :: x in a <==> x in b
  {
    forall x
      ensures x in a <==> x in b
    {
      assert x in a <==> x in multiset(a);
      assert x in b <==> x in multiset(b);
    }
  }

  lemma {:induction false} InsertAscending(name: Bytes, names: seq<Bytes>)
    requires Ascending(names) && name !in names
    ensures Ascending(Insert(name, names))
  {
    if names == [] {
    } else if Less(name, names[0]) {
      forall j | 0 <= j < |names|
        ensures Less(name, names[j])
      {
        if j > 0 {
          LessTransitive(name, names[0], names[j]);
        }
      }
    } else {
      var rest := Insert(name, names[1..]);
      InsertAscending(name, names[1..]);
      LessTotal(name, names[0]);
      forall j | 0 <= j < |rest|
        ensures Less(names[0], rest[j])
      {
        assert rest[j] in multiset(rest);
        if rest[j] != name {
          assert rest[j] in names[1..];
        }
      }
    }
  }

  lemma {:induction false} SortAscending(names: seq<Bytes>)
    requires Distinct(names)
    ensures Ascending(Sort(names))
  {
    if names != [] {
      SortAscending(names[1..]);
      SameMembers(Sort(names[1..]), names[1..]);
      InsertAscending(names[0], Sort(names[1..]));
    }
  }
}
