/** MQTT's Remaining Length, section 2.2.3 of MQTT 3.1.1: seven bits a byte, least significant
  first, the high bit meaning that another byte follows. */
module Varint {
  import opened Bytes

  /** At most four bytes of seven bits. */
  const LIMIT: nat := 0x1000_0000

  datatype Decoded =
    | Value(value: nat, used: nat)
    | Ended         // the stream stopped inside the number
    | Unterminated  // a fourth byte still asked for more

  /** The bytes that `appendVarint` adds for `n`. */
  function Encode(n: nat): (r: Str)
    ensures 1 <= |r|
  {
    if n < 128 then [n] else [n % 128 + 128] + Encode(n / 128)
  }

  function DecodeFrom(s: Str, budget: nat): Decoded {
    if budget == 0 then Unterminated
    else if s == [] then Ended
    else if s[0] < 128 then Value(s[0], 1)
    else
      match DecodeFrom(s[1..], budget - 1)
      case Value(v, u) => Value(s[0] % 128 + 128 * v, u + 1)
      case other => other
  }

  /** What `readVarint` reports on a stream whose remaining bytes are `s`. */
  function Decode(s: Str): Decoded {
    DecodeFrom(s, 4)
  }

  function Power128(k: nat): (r: nat)
    ensures 1 <= r
  {
    if k == 0 then 1 else 128 * Power128(k - 1)
  }

  lemma Powers()
    ensures Power128(1) == 128 && Power128(2) == 16384 && Power128(3) == 2097152 && Power128(4) == LIMIT
  {
    assert Power128(0) == 1 && Power128(1) == 128 && Power128(2) == 16384 && Power128(3) == 2097152;
  }

  lemma {:induction false} EncodeDecodeFrom(n: nat, budget: nat, rest: Str)
    requires 1 <= budget
    ensures n < Power128(budget) ==> DecodeFrom(Encode(n) + rest, budget) == Value(n, |Encode(n)|)
    ensures Power128(budget) <= n ==> DecodeFrom(Encode(n) + rest, budget) == Unterminated
  {
    var s := Encode(n) + rest;
    if n < 128 {
      assert s[0] == n;
    } else {
      assert s[0] == n % 128 + 128 && s[1..] == Encode(n / 128) + rest;
      assert Power128(budget) == 128 * Power128(budget - 1);
      if 1 < budget {
        EncodeDecodeFrom(n / 128, budget - 1, rest);
      }
    }
  }

  /** `readVarint` inverts `appendVarint` below 2^28, whatever follows on the stream, and
    refuses everything that `appendVarint` writes from 2^28 on. */
  lemma DecodeEncode(n: nat, rest: Str)
    ensures n < LIMIT ==> Decode(Encode(n) + rest) == Value(n, |Encode(n)|)
    ensures LIMIT <= n ==> Decode(Encode(n) + rest) == Unterminated
  {
    Powers();
    EncodeDecodeFrom(n, 4, rest);
  }

  lemma {:induction false} EncodeLengthBound(n: nat, k: nat)
    requires 1 <= k
    ensures |Encode(n)| <= k <==> n < Power128(k)
  {
    assert Power128(k) == 128 * Power128(k - 1);
    if 128 <= n && 1 < k {
      EncodeLengthBound(n / 128, k - 1);
    }
  }

  /** The size thresholds of table 2.4 of MQTT 3.1.1. */
  lemma EncodeThresholds(n: nat)
    ensures |Encode(n)| == 1 <==> n <= 127
    ensures |Encode(n)| == 2 <==> 128 <= n <= 16383
    ensures |Encode(n)| == 3 <==> 16384 <= n <= 2097151
    ensures |Encode(n)| == 4 <==> 2097152 <= n < LIMIT
  {
    Powers();
    EncodeLengthBound(n, 1);
    EncodeLengthBound(n, 2);
    EncodeLengthBound(n, 3);
    EncodeLengthBound(n, 4);
  }

  lemma TwoBytes(n: nat)
    requires 128 <= n < 16384
    ensures Encode(n) == [128 + n % 128, n / 128]
  {
    assert Encode(n) == [n % 128 + 128] + Encode(n / 128);
  }

  lemma ThreeBytes(n: nat)
    requires 16384 <= n < 2097152
    ensures Encode(n) == [128 + n % 128, 128 + n / 128 % 128, n / 16384]
  {
    assert Encode(n) == [n % 128 + 128] + Encode(n / 128);
    TwoBytes(n / 128);
  }

  lemma FourBytes(n: nat)
    requires 2097152 <= n < 268435456
    ensures Encode(n) == [128 + n % 128, 128 + n / 128 % 128, 128 + n / 16384 % 128, n / 2097152]
  {
    assert Encode(n) == [n % 128 + 128] + Encode(n / 128);
    ThreeBytes(n / 128);
    assert n / 128 / 128 == n / 16384 && n / 128 / 16384 == n / 2097152;
  }

  /** The bytes themselves: base 128, least significant digit first, 128 added to all but the last. */
  lemma EncodeBytes(n: nat)
    ensures n < 128 ==> Encode(n) == [n]
    ensures 128 <= n < 16384 ==> Encode(n) == [128 + n % 128, n / 128]
    ensures 16384 <= n < 2097152 ==> Encode(n) == [128 + n % 128, 128 + n / 128 % 128, n / 16384]
    ensures 2097152 <= n < 268435456 ==>
              Encode(n) == [128 + n % 128, 128 + n / 128 % 128, 128 + n / 16384 % 128, n / 2097152]
  {
    if 128 <= n < 16384 {
      TwoBytes(n);
    } else if 16384 <= n < 2097152 {
      ThreeBytes(n);
    } else if 2097152 <= n < 268435456 {
      FourBytes(n);
    }
  }

  lemma {:induction false} DecodeFromBounds(s: Str, budget: nat)
    requires DecodeFrom(s, budget).Value?
    ensures var d := DecodeFrom(s, budget);
            1 <= d.used <= budget && d.used <= |s| && d.value < Power128(d.used) <= Power128(budget)
  {
    if 128 <= s[0] {
      DecodeFromBounds(s[1..], budget - 1);
    } else {
      PowerMonotone(1, budget);
    }
  }

  lemma {:induction false} PowerMonotone(i: nat, j: nat)
    requires i <= j
    ensures Power128(i) <= Power128(j)
  {
    if i < j {
      PowerMonotone(i, j - 1);
    }
  }

  lemma {:induction false} CanonicalFrom(s: Str, budget: nat)
    requires DecodeFrom(s, budget).Value?
    ensures var d := DecodeFrom(s, budget);
            d.used <= |s| && 1 <= d.used
            && |Encode(d.value)| <= d.used
            && (Encode(d.value) == s[..d.used] <==> d.used == 1 || s[d.used - 1] != 0)
            && (d.value == 0 ==> d.used == 1 || s[d.used - 1] == 0)
  {
    if 128 <= s[0] {
      CanonicalFrom(s[1..], budget - 1);
      var d := DecodeFrom(s[1..], budget - 1);
      var v := s[0] % 128 + 128 * d.value;
      assert s[..d.used + 1] == [s[0]] + s[1..][..d.used];
      assert v / 128 == d.value;
      if 128 <= v {
        assert Encode(v) == [s[0]] + Encode(d.value);
        assert Encode(v)[1..] == Encode(d.value) && s[..d.used + 1][1..] == s[1..][..d.used];
      }
    }
  }

  /** Every accepted number lies below 2^28 and takes one to four bytes; writing it again never
    takes more bytes than were read, and gives back those very bytes exactly when the number was
    not padded with a final zero byte (as `80 00` is). */
  lemma DecodeIsMinimal(s: Str)
    requires Decode(s).Value?
    ensures var d := Decode(s);
            d.value < LIMIT && 1 <= d.used <= 4 && d.used <= |s|
            && |Encode(d.value)| <= d.used
            && (Encode(d.value) == s[..d.used] <==> d.used == 1 || s[d.used - 1] != 0)
  {
    Powers();
    DecodeFromBounds(s, 4);
    CanonicalFrom(s, 4);
  }

  lemma {:induction false} DecodeFromStable(s: Str, t: Str, budget: nat)
    requires !DecodeFrom(s, budget).Ended?
    ensures DecodeFrom(s + t, budget) == DecodeFrom(s, budget)
  {
    if 0 < budget {
      assert (s + t)[0] == s[0] && (s + t)[1..] == s[1..] + t;
      if 128 <= s[0] {
        DecodeFromStable(s[1..], t, budget - 1);
      }
    }
  }

  lemma {:induction false} TruncatedFrom(n: nat, k: nat, budget: nat)
    requires k < |Encode(n)| <= budget
    ensures DecodeFrom(Encode(n)[..k], budget).Ended?
  {
    if 0 < k {
      assert Encode(n)[..k][0] == Encode(n)[0];
      assert Encode(n)[..k][1..] == Encode(n / 128)[..k - 1];
      TruncatedFrom(n / 128, k - 1, budget - 1);
    }
  }

  /** A number cut short is never mistaken for another one. */
  lemma DecodeTruncated(n: nat, k: nat)
    requires n < LIMIT && k < |Encode(n)|
    ensures Decode(Encode(n)[..k]).Ended?
  {
    EncodeThresholds(n);
    TruncatedFrom(n, k, 4);
  }

  /** The number continued from `used` bytes already read, which gave `value`; the next digit counts
    `scale`, that is 2^multiplier. */
  function Continue(s: Str, budget: nat, used: nat, value: nat, scale: nat): Decoded {
    if budget == 0 then Unterminated
    else if s == [] then Ended
    else
      var v := value + s[0] % 128 * scale;
      if s[0] < 128 then Value(v, used + 1) else Continue(s[1..], budget - 1, used + 1, v, scale * 128)
  }

  lemma {:induction false} ContinueDecodes(s: Str, budget: nat, used: nat, value: nat, scale: nat)
    ensures Continue(s, budget, used, value, scale) ==
            match DecodeFrom(s, budget)
            case Value(n, u) => Value(value + n * scale, used + u)
            case other => other
  {
    if 0 < budget && s != [] && 128 <= s[0] {
      ContinueDecodes(s[1..], budget - 1, used + 1, value + s[0] % 128 * scale, scale * 128);
      match DecodeFrom(s[1..], budget - 1)
      case Value(n, _) => ScaleStep(scale, s[0] % 128, n);
      case _ =>
    }
  }

  lemma ScaleStep(scale: nat, digit: nat, n: nat)
    ensures (digit + 128 * n) * scale == digit * scale + n * (scale * 128)
  {
    assert 128 * n * scale == n * (scale * 128);
  }

  /** The loop of `appendVarint`, which ends for every `n`. */
  method AppendVarint(b: Str, size: nat) returns (r: Str)
    ensures r == b + Encode(size)
  {
    var n := size;
    r := b;
    while true
      invariant r + Encode(n) == b + Encode(size)
      decreases n
    {
      var digit := n % 128;
      var left := n / 128;
      if 0 < left {
        digit := digit + 128;
      }
      ghost var before := r;
      r := r + [digit];
      if left == 0 {
        assert Encode(n) == [digit];
        return;
      }
      assert before + ([digit] + Encode(left)) == r + Encode(left);
      n := left;
    }
  }
}
