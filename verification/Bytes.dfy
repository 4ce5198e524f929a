/** Bytes, the integer fields every codec uses, and concatenation. */
module Bytes {

  type byte = x: int | 0 <= x < 256
  type u64 = x: int | 0 <= x < 0x1_0000_0000_0000_0000

  datatype Option<+T> = None | Some(value: T)

  /** 256^n, the number of values an n-byte field holds. */
  function Range(n: nat): (r: nat)
    ensures r > 0
  {
    if n == 0 then 1 else 256 * Range(n - 1)
  }

  /** The n low bytes of v, least significant first. */
  function LeBytes(v: nat, n: nat): (s: seq<byte>)
    ensures |s| == n
  {
    if n == 0 then [] else [v % 256] + LeBytes(v / 256, n - 1)
  }

  function LeValue(s: seq<byte>): (v: nat)
  {
    if s == [] then 0 else s[0] + 256 * LeValue(s[1..])
  }

  lemma {:induction false} LeRoundTrip(v: nat, n: nat)
    requires v < Range(n)
    ensures LeValue(LeBytes(v, n)) == v
  {
    if n > 0 {
      LeRoundTrip(v / 256, n - 1);
      assert LeBytes(v, n)[1..] == LeBytes(v / 256, n - 1);
    }
  }

  lemma {:induction false} LeValueRoundTrip(s: seq<byte>)
    ensures LeBytes(LeValue(s), |s|) == s
  {
    if s != [] {
      var v := LeValue(s[1..]);
      LowByte(s[0], v);
      LeValueRoundTrip(s[1..]);
      assert LeBytes(s[0] + 256 * v, |s|) == [s[0]] + LeBytes(v, |s| - 1);
    }
  }

  lemma LowByte(b: byte, v: nat)
    ensures (b + 256 * v) % 256 == b && (b + 256 * v) / 256 == v
  {
  }

  lemma {:induction false} LeValueBound(s: seq<byte>)
    ensures LeValue(s) < Range(|s|)
  {
    if s != [] {
      LeValueBound(s[1..]);
    }
  }

  lemma DivUnique(v: nat, d: nat, q: nat, r: nat)
    requires d > 0 && r < d && v == d * q + r
    ensures v / d == q
  {
    var q' := v / d;
    assert v == d * q' + v % d && 0 <= v % d < d;
    TimesOrder(d, q, q');
    TimesOrder(d, q', q);
  }

  lemma TimesOrder(d: nat, a: int, b: int)
    ensures a < b ==> d * a + d <= d * b
  {
    if a < b {
      var k := b - a - 1;
      assert b == a + 1 + k;
      assert d * b == d * a + d + d * k;
      TimesNat(d, k);
    }
  }

  lemma TimesNat(d: nat, k: nat)
    ensures d * k >= 0
  {
  }

  lemma DivDiv(v: nat, b: nat)
    requires b > 0
    ensures v / 256 / b == v / (256 * b)
  {
    var q, r := v / 256, v % 256;
    var q2, r2 := q / b, q % b;
    assert q == b * q2 + r2;
    assert v == 256 * (b * q2 + r2) + r == (256 * b) * q2 + (256 * r2 + r);
    DivUnique(v, 256 * b, q2, 256 * r2 + r);
  }

  /** Byte k of the little-endian field is the k-th byte of the number. */
  lemma {:induction false} LeByteAt(v: nat, n: nat, k: nat)
    requires k < n
    ensures LeBytes(v, n)[k] == v / Range(k) % 256
  {
    if k > 0 {
      LeByteAt(v / 256, n - 1, k - 1);
      DivDiv(v, Range(k - 1));
    }
  }

  lemma {:induction false} LeByteAtEach(v: nat, n: nat)
    ensures forall k: nat | k < n :: LeBytes(v, n)[k] == v / Range(k) % 256
  {
    forall k: nat | k < n ensures LeBytes(v, n)[k] == v / Range(k) % 256 {
      LeByteAt(v, n, k);
    }
  }

  /** The 16-bit and 64-bit numbers at at, low byte first. */
  function Le16(s: seq<byte>, at: nat): (v: int)
    requires at + 2 <= |s|
  {
    s[at] as int + 0x100 * (s[at + 1] as int)
  }

  function Le64(s: seq<byte>, at: nat): (v: int)
    requires at + 8 <= |s|
  {
    Le16(s, at) + 0x1_0000 * Le16(s, at + 2) + 0x1_0000_0000 * Le16(s, at + 4) + 0x1_0000_0000_0000 * Le16(s, at + 6)
  }

  lemma {:induction false} LeValueOfTwo(s: seq<byte>)
    requires |s| == 2
    ensures LeValue(s) == Le16(s, 0)
  {
    assert LeValue(s[1..]) == s[1] as int + 256 * LeValue(s[1..][1..]);
  }

  lemma {:induction false} LeValueSplit(s: seq<byte>)
    requires |s| >= 2
    ensures LeValue(s) == Le16(s, 0) + 0x1_0000 * LeValue(s[2..])
  {
    assert s[1..][1..] == s[2..];
    assert LeValue(s[1..]) == s[1] as int + 256 * LeValue(s[1..][1..]);
  }

  lemma {:induction false} LeValueOfEight(s: seq<byte>)
    requires |s| == 8
    ensures LeValue(s) == Le64(s, 0)
  {
    LeValueSplit(s);
    LeValueSplit(s[2..]);
    LeValueSplit(s[2..][2..]);
    LeValueOfTwo(s[2..][2..][2..]);
  }

  /** The n low bytes of v, most significant first. */
  function BeBytes(v: nat, n: nat): (s: seq<byte>)
    ensures |s| == n
  {
    if n == 0 then [] else BeBytes(v / 256, n - 1) + [v % 256]
  }

  function BeValue(s: seq<byte>): (v: nat)
  {
    if s == [] then 0 else 256 * BeValue(s[..|s| - 1]) + s[|s| - 1]
  }

  lemma {:induction false} BeRoundTrip(v: nat, n: nat)
    requires v < Range(n)
    ensures BeValue(BeBytes(v, n)) == v
  {
    if n > 0 {
      BeRoundTrip(v / 256, n - 1);
      assert BeBytes(v, n)[..n - 1] == BeBytes(v / 256, n - 1);
    }
  }

  lemma {:induction false} BeValueBound(s: seq<byte>)
    ensures BeValue(s) < Range(|s|)
  {
    if s != [] {
      BeValueBound(s[..|s| - 1]);
    }
  }

  /** Byte k of the big-endian field counts from the other end. */
  lemma {:induction false} BeByteAt(v: nat, n: nat, k: nat)
    requires k < n
    ensures BeBytes(v, n)[k] == v / Range(n - 1 - k) % 256
  {
    if k < n - 1 {
      BeByteAt(v / 256, n - 1, k);
      DivDiv(v, Range(n - 2 - k));
    }
  }

  lemma {:induction false} BeByteAtEach(v: nat, n: nat)
    ensures forall k: nat | k < n :: BeBytes(v, n)[k] == v / Range(n - 1 - k) % 256
  {
    forall k: nat | k < n ensures BeBytes(v, n)[k] == v / Range(n - 1 - k) % 256 {
      BeByteAt(v, n, k);
    }
  }

  /** The 16-bit and 48-bit numbers at at, high byte first. */
  function Be16(s: seq<byte>, at: nat): (v: int)
    requires at + 2 <= |s|
  {
    0x100 * (s[at] as int) + s[at + 1] as int
  }

  function Be48(s: seq<byte>, at: nat): (v: int)
    requires at + 6 <= |s|
  {
    0x1_0000_0000 * Be16(s, at) + 0x1_0000 * Be16(s, at + 2) + Be16(s, at + 4)
  }

  lemma {:induction false} BeValueOfTwo(s: seq<byte>)
    requires |s| == 2
    ensures BeValue(s) == Be16(s, 0)
  {
    assert BeValue(s[..1]) == 256 * BeValue(s[..1][..0]) + s[0] as int;
  }

  lemma {:induction false} BeValueSplit(s: seq<byte>)
    requires |s| >= 2
    ensures BeValue(s) == 0x1_0000 * BeValue(s[..|s| - 2]) + Be16(s, |s| - 2)
  {
    var t := s[..|s| - 1];
    assert BeValue(t) == 256 * BeValue(t[..|t| - 1]) + t[|t| - 1] as int;
    assert t[..|t| - 1] == s[..|s| - 2];
  }

  lemma {:induction false} BeValueOfSix(s: seq<byte>)
    requires |s| == 6
    ensures BeValue(s) == Be48(s, 0)
  {
    BeValueSplit(s);
    BeValueSplit(s[..4]);
    assert s[..4][..2] == s[..2];
    BeValueOfTwo(s[..2]);
  }

  lemma {:induction false} RangeValues()
    ensures Range(2) == 0x1_0000 && Range(6) == 0x1_0000_0000_0000 && Range(8) == 0x1_0000_0000_0000_0000
  {
    assert Range(3) == 256 * Range(2) && Range(4) == 256 * Range(3) && Range(5) == 256 * Range(4);
    assert Range(6) == 256 * Range(5) && Range(7) == 256 * Range(6) && Range(8) == 256 * Range(7);
  }

  function Min(a: nat, b: nat): (m: nat)
  {
    if a < b then a else b
  }

  /** Common ends do not matter to whether two sequences are equal. */
  lemma CancelEnds<T>(a: seq<T>, x: seq<T>, y: seq<T>, b: seq<T>)
    requires |x| == |y|
    ensures a + (x + b) == a + (y + b) <==> x == y
  {
    if a + (x + b) == a + (y + b) {
      assert x == (a + (x + b))[|a|..|a| + |x|] && y == (a + (y + b))[|a|..|a| + |y|];
    }
  }

  lemma DropAppend<T>(a: seq<T>, b: seq<T>, n: nat)
    requires n <= |a|
    ensures (a + b)[n..] == a[n..] + b
  {
  }

  lemma AppendAssoc<T>(a: seq<T>, b: seq<T>, c: seq<T>)
    ensures (a + b) + c == a + (b + c)
  {
  }

  lemma TakeDrop<T>(a: seq<T>, n: nat)
    requires n <= |a|
    ensures a == a[..n] + a[n..]
  {
  }

  lemma PrefixBehind<T>(a: seq<T>, b: seq<T>, c: seq<T>)
    requires b <= c
    ensures a + b <= a + c
  {
  }

  lemma DropDrop<T>(a: seq<T>, m: nat, n: nat)
    requires m + n <= |a|
    ensures a[m..][n..] == a[m + n..]
  {
  }

  /** Concatenation of a list of sequences. */
  function Flatten<T>(parts: seq<seq<T>>): (s: seq<T>)
  {
    if parts == [] then [] else parts[0] + Flatten(parts[1..])
  }

  lemma {:induction false} FlattenAppend<T>(a: seq<seq<T>>, b: seq<seq<T>>)
    ensures Flatten(a + b) == Flatten(a) + Flatten(b)
  {
    if a == [] {
      assert a + b == b;
    } else {
      assert (a + b)[0] == a[0] && (a + b)[1..] == a[1..] + b;
      FlattenAppend(a[1..], b);
    }
  }

  lemma {:induction false} FlattenSnoc<T>(a: seq<seq<T>>, x: seq<T>)
    ensures Flatten(a + [x]) == Flatten(a) + x
  {
    FlattenAppend(a, [x]);
    assert Flatten([x]) == x + Flatten<T>([]);
  }
}
