/**
 * Bytes of the MySQL Client/Server Protocol: little-endian integers, length-encoded integers and
 * strings, and bit maps (pkg/mysqlmock/protocol_codec.go and pkg/mysqlmock/prepared.go; the protocol
 * page "Protocol::LengthEncodedInteger").
 */
module WireBytes {
  import opened Integers

  type Byte = b: int | 0 <= b < 0x100
  type Bytes = seq<Byte>

  /** 256 to the power k. */
  function Pow256(k: nat): (p: nat)
    ensures p > 0
  {
    if k == 0 then 1 else 0x100 * Pow256(k - 1)
  }

  lemma Powers()
    ensures Pow256(1) == 0x100 && Pow256(2) == 0x1_0000 && Pow256(3) == 0x100_0000 && Pow256(4) == 0x1_0000_0000
    ensures Pow256(8) == TWO_TO_64 == 2 * (MAX_INT64 + 1)
  {
    assert Pow256(3) == 0x100 * Pow256(2);
    assert Pow256(5) == 0x100 * Pow256(4);
    assert Pow256(7) == 0x100 * Pow256(6);
  }

  /** The k low bytes of n, lowest first. */
  function Le(n: nat, k: nat): (b: Bytes)
    ensures |b| == k
    decreases k
  {
    if k == 0 then [] else [n % 0x100] + Le(n / 0x100, k - 1)
  }

  function FromLe(b: Bytes): nat {
    if b == [] then 0 else b[0] + 0x100 * FromLe(b[1..])
  }

  lemma {:induction false} LeRoundTrip(n: nat, k: nat)
    requires n < Pow256(k)
    ensures FromLe(Le(n, k)) == n
    decreases k
  {
    if k > 0 {
      LeRoundTrip(n / 0x100, k - 1);
      assert Le(n, k)[1..] == Le(n / 0x100, k - 1);
    }
  }

  /** The low bytes of a value that does not fit are those of the value reduced modulo 256^k. */
  lemma {:induction false} LeTruncates(n: nat, k: nat)
    ensures FromLe(Le(n, k)) == n % Pow256(k)
    decreases k
  {
    if k > 0 {
      LeTruncates(n / 0x100, k - 1);
      assert Le(n, k)[1..] == Le(n / 0x100, k - 1);
      ModStep(n, Pow256(k - 1));
    }
  }

  lemma ModStep(n: nat, p: nat)
    requires p > 0
    ensures n % 0x100 + 0x100 * ((n / 0x100) % p) == n % (0x100 * p)
  {
    var q, r := (n / 0x100) / p, (n / 0x100) % p;
    var low := n % 0x100 + 0x100 * r;
    assert n == (0x100 * p) * q + low by {
      assert n == 0x100 * (n / 0x100) + n % 0x100;
      assert n / 0x100 == p * q + r;
      assert 0x100 * (p * q) == (0x100 * p) * q;
    }
    DivUnique(n, 0x100 * p, q, low);
  }

  lemma DivUnique(n: nat, m: nat, q: nat, r: nat)
    requires m > 0 && r < m && n == m * q + r
    ensures n % m == r
  {
    var r', d := n % m, q - n / m;
    assert m * (n / m) + r' == n;
    assert m * d == r' - r by {
      assert m * d == m * q - m * (n / m);
    }
    if d != 0 {
      FarApart(m, d);
    }
  }

  lemma FarApart(m: nat, d: int)
    requires m > 0 && d != 0
    ensures m * d >= m || m * d + m <= 0
  {
    if d > 0 {
      AtLeastOnce(m, d);
    } else {
      AtLeastOnce(m, 0 - d);
      assert m * (0 - d) == 0 - m * d;
    }
  }

  lemma {:induction false} AtLeastOnce(m: nat, d: nat)
    requires d > 0
    ensures m * d >= m
  {
    if d > 1 {
      AtLeastOnce(m, d - 1);
      assert m * d == m * (d - 1) + m;
    }
  }

  // ---------------------------------------------------------------------------------------------
  // Length-encoded integers and strings
  // ---------------------------------------------------------------------------------------------

  /** appendLenEncInt */
  function LenEncInt(n: nat): (b: Bytes)
    ensures b != [] && |b| <= 9
  {
    if n < 251 then [n]
    else if n <= 0xffff then [0xfc] + Le(n, 2)
    else if n <= 0xff_ffff then [0xfd] + Le(n, 3)
    else [0xfe] + Le(n, 8)
  }

  datatype LenEnc = Short | BadMarker(marker: Byte) | NullMark | Number(n: nat, size: nat)

  /** readLenEncInt */
  function ReadLenEncInt(data: Bytes): (r: LenEnc)
    ensures r.Number? ==> 0 < r.size <= |data|
  {
    if data == [] then Short
    else if data[0] == 0xfb then NullMark
    else if data[0] == 0xfc then (if |data| < 3 then Short else Number(FromLe(data[1..3]), 3))
    else if data[0] == 0xfd then (if |data| < 4 then Short else Number(FromLe(data[1..4]), 4))
    else if data[0] == 0xfe then (if |data| < 9 then Short else Number(FromLe(data[1..9]), 9))
    else if data[0] < 0xfb then Number(data[0], 1)
    else BadMarker(data[0])
  }

  /** Every 64-bit length is read back, whatever follows it. */
  lemma LenEncRoundTrip(n: nat, rest: Bytes)
    requires n < TWO_TO_64
    ensures ReadLenEncInt(LenEncInt(n) + rest) == Number(n, |LenEncInt(n)|)
  {
    var data := LenEncInt(n) + rest;
    Powers();
    if n >= 251 {
      var k := |LenEncInt(n)| - 1;
      assert data[1..k + 1] == Le(n, k);
      LeRoundTrip(n, k);
    }
  }

  /** Only lengths of 2^24 and more start with 0xfe, and none starts with the NULL or error byte. */
  lemma LenEncFirstByte(n: nat)
    ensures LenEncInt(n)[0] == 0xfe <==> n >= 0x100_0000
    ensures LenEncInt(n)[0] != 0xfb && LenEncInt(n)[0] != 0xff
  {
  }

  /** The bytes as the source appends them. */
  method AppendLenEncInt(buf: Bytes, n: nat) returns (out: Bytes)
    ensures out == buf + LenEncInt(n)
  {
    hide Le;
    if n < 251 {
      return buf + [n];
    }
    LeShort(n);
    if n <= 0xffff {
      return buf + ([0xfc] + [n % 0x100, (n / 0x100) % 0x100]);
    }
    if n <= 0xff_ffff {
      return buf + ([0xfd] + [n % 0x100, (n / 0x100) % 0x100, (n / 0x1_0000) % 0x100]);
    }
    var tail: Bytes := [];
    var shifted := n;
    for i := 0 to 8
      invariant tail + Le(shifted, 8 - i) == Le(n, 8)
    {
      LeStep(tail, shifted, 8 - i);
      tail := tail + [shifted % 0x100];
      shifted := shifted / 0x100;
    }
    assert tail + Le(shifted, 0) == tail;
    out := buf + ([0xfe] + tail);
  }

  lemma LeShort(n: nat)
    ensures Le(n, 2) == [n % 0x100, (n / 0x100) % 0x100]
    ensures Le(n, 3) == [n % 0x100, (n / 0x100) % 0x100, (n / 0x1_0000) % 0x100]
  {
    var m := n / 0x100;
    assert Le(m / 0x100, 0) == [] && m / 0x100 == n / 0x1_0000;
    assert Le(m / 0x100, 1) == [(m / 0x100) % 0x100] + Le(m / 0x100 / 0x100, 0);
    assert Le(m, 1) == [m % 0x100] + Le(m / 0x100, 0);
    assert Le(m, 2) == [m % 0x100] + Le(m / 0x100, 1);
    assert Le(n, 2) == [n % 0x100] + Le(m, 1);
    assert Le(n, 3) == [n % 0x100] + Le(m, 2);
  }

  lemma LeStep(head: Bytes, n: nat, k: nat)
    requires k > 0
    ensures head + Le(n, k) == (head + [n % 0x100]) + Le(n / 0x100, k - 1)
  {
  }

  /** appendLenEncBytes and appendLenEncString */
  function LenEncBytes(value: Bytes): (b: Bytes)
    ensures b != []
  {
    LenEncInt(|value|) + value
  }

  datatype BytesRead = NoBytes | BytesRead(value: Bytes, size: nat)

  /** readLenEncBytes; the NULL marker reads as no bytes at all. */
  function ReadLenEncBytes(data: Bytes): (r: BytesRead)
    ensures r.BytesRead? ==> 0 < r.size <= |data|
  {
    match ReadLenEncInt(data)
    case Number(n, size) =>
      if n > |data| - size then NoBytes else BytesRead(data[size..size + n], size + n)
    case NullMark => BytesRead([], 1)
    case _ => NoBytes
  }

  lemma LenEncBytesRoundTrip(value: Bytes, rest: Bytes)
    requires |value| < TWO_TO_64
    ensures ReadLenEncBytes(LenEncBytes(value) + rest) == BytesRead(value, |LenEncBytes(value)|)
  {
    var data := LenEncBytes(value) + rest;
    assert data == LenEncInt(|value|) + (value + rest);
    LenEncRoundTrip(|value|, value + rest);
    var size := |LenEncInt(|value|)|;
    assert data[size..size + |value|] == value;
  }

  /** Reading looks at nothing beyond what it consumes. */
  lemma LenEncBytesPrefix(data: Bytes, extra: Bytes)
    requires ReadLenEncBytes(data).BytesRead?
    ensures ReadLenEncBytes(data + extra) == ReadLenEncBytes(data)
  {
    var whole := data + extra;
    assert whole[0] == data[0];
    assert |data| >= 3 ==> whole[1..3] == data[1..3];
    assert |data| >= 4 ==> whole[1..4] == data[1..4];
    assert |data| >= 9 ==> whole[1..9] == data[1..9];
    var r := ReadLenEncInt(data);
    assert ReadLenEncInt(whole) == r;
    if r.Number? {
      assert whole[r.size..r.size + r.n] == data[r.size..r.size + r.n];
    }
  }

  // ---------------------------------------------------------------------------------------------
  // Bit maps
  // ---------------------------------------------------------------------------------------------

  /** `b & (1 << k) != 0` */
  predicate Bit(b: nat, k: nat) {
    if k == 0 then b % 2 == 1 else Bit(b / 2, k - 1)
  }

  function Pow2(k: nat): (p: nat)
    ensures p > 0
  {
    if k == 0 then 1 else 2 * Pow2(k - 1)
  }

  /** Up to eight bits, lowest first. */
  function Pack(bits: seq<bool>): (b: nat)
    ensures b < Pow2(|bits|)
  {
    if bits == [] then 0 else (if bits[0] then 1 else 0) + 2 * Pack(bits[1..])
  }

  function PackByte(bits: seq<bool>): Byte
    requires |bits| <= 8
  {
    Pow2Grows(|bits|, 8);
    Pack(bits)
  }

  lemma {:induction false} Pow2Grows(j: nat, k: nat)
    requires j <= k
    ensures Pow2(j) <= Pow2(k)
    ensures Pow2(8) == 0x100
  {
    assert Pow2(4) == 16;
    assert Pow2(8) == 16 * Pow2(4);
    if j < k {
      Pow2Grows(j, k - 1);
    }
  }

  /** A bit map: eight bits to the byte. */
  function BitMap(bits: seq<bool>): (b: Bytes)
    ensures |b| == (|bits| + 7) / 8
  {
    if bits == [] then []
    else if |bits| <= 8 then [PackByte(bits)]
    else [PackByte(bits[..8])] + BitMap(bits[8..])
  }

  lemma {:induction false} PackBit(bits: seq<bool>, k: nat)
    requires k < |bits|
    ensures Bit(Pack(bits), k) == bits[k]
    decreases k
  {
    if k > 0 {
      PackBit(bits[1..], k - 1);
    }
  }

  /** The bit at position i of a bit map is bit i % 8 of byte i / 8. */
  lemma {:induction false} BitMapBit(bits: seq<bool>, i: nat)
    requires i < |bits|
    ensures Bit(BitMap(bits)[i / 8], i % 8) == bits[i]
  {
    if |bits| <= 8 {
      PackBit(bits, i);
    } else if i < 8 {
      PackBit(bits[..8], i);
    } else {
      BitMapBit(bits[8..], i - 8);
      assert (i - 8) / 8 == i / 8 - 1 && (i - 8) % 8 == i % 8;
    }
  }
}
