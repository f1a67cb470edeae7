/** Little-endian words and decimal numerals. */
module Bytes {
  import opened Abi

  /** The word stored in a byte string, least significant byte first (both supported targets are x86). */
  function DecodeLe(b: seq<u8>): nat {
    if b == [] then 0 else b[0] + 0x100 * DecodeLe(b[1..])
  }

  function EncodeLe(v: nat, n: nat): (b: seq<u8>)
    ensures |b| == n
  {
    if n == 0 then [] else [v % 0x100] + EncodeLe(v / 0x100, n - 1)
  }

  function Pow256(n: nat): nat {
    if n == 0 then 1 else 0x100 * Pow256(n - 1)
  }

  lemma {:induction false} DecodeBound(b: seq<u8>)
    ensures DecodeLe(b) < Pow256(|b|)
  {
    if b != [] {
      DecodeBound(b[1..]);
    }
  }

  lemma {:induction false} DecodeEncode(v: nat, n: nat)
    requires v < Pow256(n)
    ensures DecodeLe(EncodeLe(v, n)) == v
  {
    if n > 0 {
      DecodeEncode(v / 0x100, n - 1);
      assert EncodeLe(v, n)[1..] == EncodeLe(v / 0x100, n - 1);
    }
  }

  lemma LowByte(low: u8, high: nat)
    ensures (low + 0x100 * high) % 0x100 == low && (low + 0x100 * high) / 0x100 == high
  {
  }

  lemma {:induction false} EncodeDecode(b: seq<u8>)
    ensures EncodeLe(DecodeLe(b), |b|) == b
  {
    if b != [] {
      EncodeDecode(b[1..]);
      LowByte(b[0], DecodeLe(b[1..]));
      assert [b[0]] + b[1..] == b;
    }
  }

  lemma Pow256Values()
    ensures Pow256(2) == 0x1_0000 && Pow256(4) == WORD32 && Pow256(8) == WORD64
  {
    assert Pow256(3) == 0x100 * Pow256(2);
    assert Pow256(4) == 0x100 * Pow256(3);
    assert Pow256(5) == 0x100 * Pow256(4);
    assert Pow256(6) == 0x100 * Pow256(5);
    assert Pow256(7) == 0x100 * Pow256(6);
    assert Pow256(8) == 0x100 * Pow256(7);
  }

  function Word16(b: seq<u8>): u16
    requires |b| == 2
  {
    Pow256Values();
    DecodeBound(b);
    DecodeLe(b)
  }

  function Word32(b: seq<u8>): u32
    requires |b| == 4
  {
    Pow256Values();
    DecodeBound(b);
    DecodeLe(b)
  }

  function Word64(b: seq<u8>): u64
    requires |b| == 8
  {
    Pow256Values();
    DecodeBound(b);
    DecodeLe(b)
  }

  /** Byte order, spelled out. */
  lemma LittleEndian(b: seq<u8>)
    ensures |b| == 2 ==> Word16(b) == b[0] + 0x100 * (b[1] as int)
    ensures |b| == 4 ==>
              Word32(b) == b[0] + 0x100 * (b[1] as int) + 0x1_0000 * (b[2] as int) + 0x100_0000 * (b[3] as int)
  {
    if |b| == 2 {
      assert DecodeLe(b[1..]) == b[1] + 0x100 * DecodeLe(b[1..][1..]);
    } else if |b| == 4 {
      var t := b[1..];
      assert t[1..] == b[2..] && b[2..][1..] == b[3..];
      assert DecodeLe(b[3..]) == b[3] + 0x100 * DecodeLe(b[3..][1..]);
      assert DecodeLe(b[2..]) == b[2] + 0x100 * DecodeLe(b[3..]);
      assert DecodeLe(t) == b[1] + 0x100 * DecodeLe(b[2..]);
    }
  }

  /** `n * k` by repeated addition: keeps index arithmetic over rows linear (see `TimesIsProduct`). */
  function Times(n: nat, k: nat): nat {
    if n == 0 then 0 else Times(n - 1, k) + k
  }

  lemma {:induction false} TimesIsProduct(n: nat, k: nat)
    ensures Times(n, k) == n * k
  {
    if n > 0 {
      TimesIsProduct(n - 1, k);
      assert n * k == (n - 1) * k + k;
    }
  }

  /** Rows below row `n` end before it starts. */
  lemma {:induction false} TimesStep(m: nat, n: nat, k: nat)
    requires m < n
    ensures Times(m, k) + k <= Times(n, k)
    decreases n
  {
    if m < n - 1 {
      TimesStep(m, n - 1, k);
    }
  }

  predicate IsDigit(c: char) {
    '0' <= c <= '9'
  }

  predicate AllDigits(s: string) {
    forall i :: 0 <= i < |s| ==> IsDigit(s[i])
  }

  /** `%u`, `%ld` and `%llu` on non-negative values. */
  function Decimal(n: nat): (s: string)
    ensures s != "" && AllDigits(s)
  {
    var digit := ['0' + (n % 10) as char];
    if n < 10 then digit else Decimal(n / 10) + digit
  }

  /** The value of a digit string, leading zeros included. */
  function Value(s: string): nat
    requires AllDigits(s)
  {
    if s == "" then 0 else 10 * Value(s[..|s| - 1]) + (s[|s| - 1] as int - '0' as int)
  }

  lemma {:induction false} ValueOfDecimal(n: nat)
    ensures Value(Decimal(n)) == n
  {
    if n >= 10 {
      ValueOfDecimal(n / 10);
      var s := Decimal(n);
      assert s[..|s| - 1] == Decimal(n / 10);
    }
  }

  /** Strings one after the other. */
  function Concat(parts: seq<string>): string {
    if parts == [] then "" else parts[0] + Concat(parts[1..])
  }

  lemma ConcatFour(a: string, b: string, c: string, d: string)
    ensures Concat([a, b, c, d]) == a + (b + (c + d))
  {
    assert [a, b, c, d][1..] == [b, c, d] && [b, c, d][1..] == [c, d] && [c, d][1..] == [d] && [d][1..] == [];
    assert Concat([d]) == d + "" == d;
    assert Concat([c, d]) == c + d;
    assert Concat([b, c, d]) == b + (c + d);
  }
}
