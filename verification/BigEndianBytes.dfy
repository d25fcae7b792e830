/** Big-endian integers in byte strings. */
module BigEndianBytes {
  import opened Common

  const TWO_16: nat := 0x1_0000
  const TWO_24: nat := 0x100_0000
  const TWO_48: nat := 0x1_0000_0000_0000

  function BigEndian(bytes: seq<byte>): nat
  {
    if bytes == [] then 0 else BigEndian(bytes[..|bytes| - 1]) * 256 + bytes[|bytes| - 1]
  }

  /** x followed by n zero bytes. */
  function Scale(x: nat, n: nat): nat { if n == 0 then x else 256 * Scale(x, n - 1) }

  lemma {:induction false} BigEndianSplit(bytes: seq<byte>, k: nat)
    requires k <= |bytes|
    ensures BigEndian(bytes) == Scale(BigEndian(bytes[..k]), |bytes| - k) + BigEndian(bytes[k..])
    ensures BigEndian(bytes[k..]) < Scale(1, |bytes| - k)
  {
    if k == |bytes| {
      assert bytes[..k] == bytes;
    } else {
      var front := bytes[..|bytes| - 1];
      BigEndianSplit(front, k);
      assert front[..k] == bytes[..k] && front[k..] == bytes[k..][..|bytes| - k - 1];
    }
  }

  lemma Scale6(x: nat)
    ensures Scale(x, 6) == TWO_48 * x
  {
    assert Scale(x, 1) == 256 * x;
    assert Scale(x, 2) == 0x1_0000 * x;
    assert Scale(x, 3) == 0x100_0000 * x;
    assert Scale(x, 4) == 0x1_0000_0000 * x;
    assert Scale(x, 5) == 0x100_0000_0000 * x;
  }

  /** The n-byte big-endian form of v, as CBB_add_u16 and CBB_add_u24 write it. */
  function ToBytes(v: nat, n: nat): (r: seq<byte>)
    ensures |r| == n
  {
    if n == 0 then [] else ToBytes(v / 256, n - 1) + [v % 256]
  }

  lemma {:induction false} ToBytesValue(v: nat, n: nat)
    requires v < Scale(1, n)
    ensures BigEndian(ToBytes(v, n)) == v
  {
    if n > 0 { ToBytesValue(v / 256, n - 1); }
  }

  /** Three bytes and two bytes, the highest first. */
  lemma BytesInOrder(v: nat)
    ensures v < TWO_24 ==> var b := ToBytes(v, 3); (b[0] as int) * 0x1_0000 + (b[1] as int) * 256 + b[2] as int == v
    ensures v < TWO_16 ==> var b := ToBytes(v, 2); (b[0] as int) * 256 + b[1] as int == v
  {
    assert forall x: nat :: ToBytes(x, 1) == [x % 256] by { assert forall x: nat :: ToBytes(x, 0) == []; }
    assert forall x: nat :: ToBytes(x, 2) == [(x / 256) % 256, x % 256];
    assert ToBytes(v, 3) == [(v / 256 / 256) % 256, (v / 256) % 256, v % 256];
  }

  lemma {:induction false} BytesOfValue(b: seq<byte>)
    ensures ToBytes(BigEndian(b), |b|) == b && BigEndian(b) < Scale(1, |b|)
  {
    if b != [] { BytesOfValue(b[..|b| - 1]); }
  }

  /** Adding one in place, from the last byte; false if every byte wrapped. */
  function Increment(b: seq<byte>): (r: (seq<byte>, bool))
    ensures |r.0| == |b|
  {
    if b == [] then ([], false)
    else
      var n := |b| - 1;
      if b[n] < 255 then (b[..n] + [b[n] + 1], true)
      else
        var front := Increment(b[..n]);
        (front.0 + [0], front.1)
  }

  lemma {:induction false} IncrementValue(b: seq<byte>)
    ensures var (b', ok) := Increment(b);
      if ok then BigEndian(b') == BigEndian(b) + 1 else BigEndian(b) == Scale(1, |b|) - 1 && BigEndian(b') == 0
  {
    if b != [] { IncrementValue(b[..|b| - 1]); }
  }
}
