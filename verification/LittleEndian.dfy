/** Fixed-width little-endian integers. */
module LittleEndian {
  import opened Common

  /** The value of little-endian bytes. */
  function FromLittleEndian(bytes: seq<byte>): nat {
    if bytes == [] then 0 else bytes[0] + 256 * FromLittleEndian(bytes[1..])
  }

  /** The low bytes of a value, little-endian: how a reader takes a word apart. */
  function ToLittleEndian(value: nat, count: nat): (r: seq<byte>)
    ensures |r| == count
  {
    if count == 0 then [] else [value % 256] + ToLittleEndian(value / 256, count - 1)
  }

  lemma LowByte(low: byte, high: nat)
    ensures (low + 256 * high) % 256 == low && (low + 256 * high) / 256 == high
  {
  }

  lemma {:induction false} LittleEndianRoundTrip(bytes: seq<byte>)
    ensures ToLittleEndian(FromLittleEndian(bytes), |bytes|) == bytes
    decreases |bytes|
  {
    if bytes != [] {
      var rest := bytes[1..];
      var high := FromLittleEndian(rest);
      LittleEndianRoundTrip(rest);
      LowByte(bytes[0], high);
      assert ToLittleEndian(FromLittleEndian(bytes), |bytes|) == [bytes[0]] + ToLittleEndian(high, |rest|);
    }
  }

  function Power(count: nat): (r: nat)
    ensures r > 0
  {
    if count == 0 then 1 else 256 * Power(count - 1)
  }

  lemma {:induction false} LittleEndianFits(bytes: seq<byte>)
    ensures FromLittleEndian(bytes) < Power(|bytes|)
    decreases |bytes|
  {
    if bytes != [] {
      LittleEndianFits(bytes[1..]);
    }
  }

  /** Byte `i` is the `i`th digit to the base 256, the lowest first. */
  lemma {:induction false} BytesByPosition(value: nat, count: nat, i: nat)
    requires i < count
    ensures ToLittleEndian(value, count)[i] == value / Power(i) % 256
    decreases count
  {
    if i > 0 {
      BytesByPosition(value / 256, count - 1, i - 1);
      DivideTwice(value, Power(i - 1));
    }
  }

  lemma DivideTwice(value: nat, d: nat)
    requires d > 0
    ensures value / 256 / d == value / (256 * d)
  {
    var q, r := value / 256, value % 256;
    var p, s := q / d, q % d;
    assert value == 256 * (p * d + s) + r == (256 * d) * p + (256 * s + r);
    assert 0 <= 256 * s + r < 256 * d;
    QuotientIs(value, 256 * d, p, 256 * s + r);
  }

  lemma QuotientIs(value: nat, d: nat, p: nat, r: nat)
    requires d > 0 && value == d * p + r && r < d
    ensures value / d == p
  {
    var x := p - value / d;
    assert d * x == value % d - r;
    assert x >= 1 ==> d * x >= d;
    assert x <= -1 ==> d * x + d <= 0;
  }

  lemma {:induction false} ValueRoundTrip(value: nat, count: nat)
    requires value < Power(count)
    ensures FromLittleEndian(ToLittleEndian(value, count)) == value
    decreases count
  {
    if count > 0 {
      ValueRoundTrip(value / 256, count - 1);
      assert ToLittleEndian(value, count)[1..] == ToLittleEndian(value / 256, count - 1);
    }
  }
}
