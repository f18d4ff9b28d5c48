/** Big-endian 32-bit numbers, as three of the formats store them. */
module BigEndian {
  import opened Common

  /** The four bytes of a number, wrapping as the conversion does. */
  function BE32(n: nat): (b: Bytes)
    ensures |b| == 4
  {
    var m := n % 0x1_0000_0000;
    var hi, lo := m / 0x1_0000, m % 0x1_0000;
    [(hi / 0x100) as Byte, (hi % 0x100) as Byte, (lo / 0x100) as Byte, (lo % 0x100) as Byte]
  }

  function FromBE32(b: Bytes): (n: nat)
    requires |b| == 4
    ensures n < 0x1_0000_0000
  {
    (b[0] as int * 0x100 + b[1] as int) * 0x1_0000 + (b[2] as int * 0x100 + b[3] as int)
  }

  lemma BE32RoundTrip(n: nat)
    ensures FromBE32(BE32(n)) == n % 0x1_0000_0000
  {
    var m := n % 0x1_0000_0000;
    var hi, lo := m / 0x1_0000, m % 0x1_0000;
    assert hi == hi / 0x100 * 0x100 + hi % 0x100 && lo == lo / 0x100 * 0x100 + lo % 0x100;
  }

  lemma FromBE32RoundTrip(b: Bytes)
    requires |b| == 4
    ensures BE32(FromBE32(b)) == b
  {
    var hi, lo := b[0] as int * 0x100 + b[1] as int, b[2] as int * 0x100 + b[3] as int;
    assert FromBE32(b) / 0x1_0000 == hi && FromBE32(b) % 0x1_0000 == lo;
  }
}
