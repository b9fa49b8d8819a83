/** Go byte strings and the few library functions over them that SensorHub relies on.

  A Go `string` and a Go `[]byte` are both sequences of bytes, so both are `Str` here. Bit
  operations on bytes are written as the arithmetic they denote: `b >> 4` is `b / 16`,
  `b & 0x0f` is `b % 16`, `b & 0x80 == 0` is `b < 128`.
*/
module Bytes {

  type Byte = b: int | 0 <= b < 256

  type Str = seq<Byte>

  type UInt16 = n: int | 0 <= n < 0x1_0000

  datatype Option<+T> = None | Some(value: T)

  datatype Result<+T, +E> = Ok(value: T) | Err(error: E)

  /** The bytes of a Go string literal. Every literal of the model is ASCII, one byte a character. */
  function Ascii(s: string): (r: Str)
    ensures |r| == |s|
    ensures forall i :: 0 <= i < |s| && s[i] < 128 as char ==> r[i] == s[i] as int
  {
    seq(|s|, i requires 0 <= i < |s| => s[i] as int % 256)
  }

  /** `binary.BigEndian.AppendUint16(nil, uint16(n))`: the conversion keeps the low 16 bits. */
  function Be16(n: nat): Str {
    [n / 256 % 256, n % 256]
  }

  /** `binary.BigEndian.Uint16(b)`. */
  function FromBe16(b: Str): UInt16
    requires 2 <= |b|
  {
    (b[0] as int) * 256 + b[1] as int
  }

  /** `strings.HasPrefix`. */
  predicate HasPrefix(s: Str, prefix: Str) {
    prefix <= s
  }

  /** Go's `<` on strings: lexicographic by byte. */
  predicate Less(a: Str, b: Str) {
    if b == [] then false
    else if a == [] then true
    else if a[0] != b[0] then a[0] < b[0]
    else Less(a[1..], b[1..])
  }

  lemma {:induction false} LessIrreflexive(a: Str)
    ensures !Less(a, a)
  {
    if a != [] {
      LessIrreflexive(a[1..]);
    }
  }

  lemma {:induction false} LessTransitive(a: Str, b: Str, c: Str)
    requires Less(a, b) && Less(b, c)
    ensures Less(a, c)
  {
    if a != [] && a[0] == b[0] && b[0] == c[0] {
      LessTransitive(a[1..], b[1..], c[1..]);
    }
  }

  lemma {:induction false} LessTotal(a: Str, b: Str)
    ensures Less(a, b) || a == b || Less(b, a)
  {
    if a != [] && b != [] && a[0] == b[0] {
      LessTotal(a[1..], b[1..]);
      assert a == [a[0]] + a[1..] && b == [b[0]] + b[1..];
    }
  }

  /** The order spelled out: `a` is a proper beginning of `b`, or at the first difference its byte is the
    smaller one. */
  predicate Before(a: Str, b: Str) {
    (|a| < |b| && b[..|a|] == a) || exists k :: 0 <= k < |a| && k < |b| && FirstDifference(a, b, k) && a[k] < b[k]
  }

  predicate FirstDifference(a: Str, b: Str, k: nat)
    requires k < |a| && k < |b|
  {
    a[..k] == b[..k] && a[k] != b[k]
  }

  lemma {:induction false} LessAtDifference(p: Str, x: Byte, s: Str, y: Byte, t: Str)
    requires x < y
    ensures Less(p + [x] + s, p + [y] + t)
  {
    var a, b := p + [x] + s, p + [y] + t;
    if p == [] {
      assert a[0] == x && b[0] == y;
    } else {
      assert a[0] == p[0] == b[0];
      assert a[1..] == p[1..] + [x] + s && b[1..] == p[1..] + [y] + t;
      LessAtDifference(p[1..], x, s, y, t);
    }
  }

  lemma {:induction false} LessPrefix(p: Str, y: Byte, t: Str)
    ensures Less(p, p + [y] + t)
  {
    if p != [] {
      assert (p + [y] + t)[0] == p[0] && (p + [y] + t)[1..] == p[1..] + [y] + t;
      LessPrefix(p[1..], y, t);
    }
  }

  lemma BeforeIsLess(a: Str, b: Str)
    requires Before(a, b)
    ensures Less(a, b)
  {
    if |a| < |b| && b[..|a|] == a {
      assert b == a + [b[|a|]] + b[|a| + 1..];
      LessPrefix(a, b[|a|], b[|a| + 1..]);
    } else {
      var k :| 0 <= k < |a| && k < |b| && FirstDifference(a, b, k) && a[k] < b[k];
      assert a == a[..k] + [a[k]] + a[k + 1..] && b == a[..k] + [b[k]] + b[k + 1..];
      LessAtDifference(a[..k], a[k], a[k + 1..], b[k], b[k + 1..]);
    }
  }

  lemma {:induction false} OneIsBefore(a: Str, b: Str)
    requires a != b
    ensures Before(a, b) || Before(b, a)
  {
    if a != [] && b != [] && a[0] == b[0] {
      OneIsBefore(a[1..], b[1..]);
      assert a == [a[0]] + a[1..] && b == [b[0]] + b[1..];
      if Before(a[1..], b[1..]) {
        BeforeTail(a, b);
      } else {
        BeforeTail(b, a);
      }
    } else if a != [] && b != [] {
      assert FirstDifference(a, b, 0) && FirstDifference(b, a, 0);
    }
  }

  lemma BeforeTail(a: Str, b: Str)
    requires a != [] && b != [] && a[0] == b[0] && Before(a[1..], b[1..])
    ensures Before(a, b)
  {
    var c, d := a[1..], b[1..];
    if |c| < |d| && d[..|c|] == c {
      assert b[..|a|] == [b[0]] + d[..|c|] && a == [a[0]] + c;
    } else {
      var k :| 0 <= k < |c| && k < |d| && FirstDifference(c, d, k) && c[k] < d[k];
      assert a[..k + 1] == [a[0]] + c[..k] && b[..k + 1] == [b[0]] + d[..k];
      assert FirstDifference(a, b, k + 1);
    }
  }

  /** `Less` is that order and no other. */
  lemma LessIsBefore(a: Str, b: Str)
    ensures Less(a, b) <==> Before(a, b)
  {
    if Before(a, b) {
      BeforeIsLess(a, b);
    } else if Less(a, b) {
      if a == b {
        LessIrreflexive(a);
      } else {
        OneIsBefore(a, b);
        BeforeIsLess(b, a);
        LessTransitive(a, b, a);
        LessIrreflexive(a);
      }
    }
  }

  /** The two byte orders agree: a 16-bit length survives its encoding, a longer one wraps. */
  lemma Be16RoundTrip(n: nat, rest: Str)
    ensures FromBe16(Be16(n) + rest) == n % 0x1_0000
  {
    assert (Be16(n) + rest)[0] == n / 256 % 256 && (Be16(n) + rest)[1] == n % 256;
    assert n == n / 256 * 256 + n % 256;
    assert n / 256 == n / 256 / 256 * 256 + n / 256 % 256;
    assert n / 256 / 256 == n / 0x1_0000;
  }

  lemma FromBe16RoundTrip(b: Str)
    requires 2 <= |b|
    ensures Be16(FromBe16(b)) == b[..2]
  {
  }

  lemma ConcatAssoc<T>(a: seq<T>, b: seq<T>, c: seq<T>)
    ensures a + b + c == a + (b + c)
  {
  }

  lemma HeadTail<T>(s: seq<T>)
    requires s != []
    ensures s == [s[0]] + s[1..]
  {
  }

  /** The last `n` elements, or all of them when there are fewer. */
  function LastN<T>(s: seq<T>, n: nat): seq<T> {
    if |s| <= n then s else s[|s| - n..]
  }

  /** Appending and cutting back to `n` keeps the last `n` of the untruncated sequence. */
  lemma LastNAppend<T>(s: seq<T>, x: T, n: nat)
    ensures LastN(LastN(s, n) + [x], n) == LastN(s + [x], n)
  {
  }

  lemma LastNLastN<T>(s: seq<T>, m: nat, n: nat)
    requires m <= n
    ensures LastN(LastN(s, n), m) == LastN(s, m)
  {
  }

  lemma LastNConcat<T>(a: seq<T>, b: seq<T>, n: nat)
    ensures LastN(LastN(a, n) + b, n) == LastN(a + b, n)
  {
    if n < |a| {
      var d := |a| - n;
      assert a == a[..d] + a[d..];
      assert a + b == a[..d] + (a[d..] + b);
      DropFront(a[..d], a[d..] + b, n);
    }
  }

  lemma DropFront<T>(front: seq<T>, s: seq<T>, n: nat)
    requires n <= |s|
    ensures LastN(front + s, n) == LastN(s, n)
  {
    assert (front + s)[|front| + |s| - n..] == s[|s| - n..];
    assert n == |s| ==> s[0..] == s;
  }

  function Reverse<T>(s: seq<T>): (r: seq<T>)
    ensures |r| == |s|
    ensures forall i :: 0 <= i < |s| ==> r[i] == s[|s| - 1 - i]
  {
    if s == [] then [] else Reverse(s[1..]) + [s[0]]
  }
}
