/** Fixed-width integers of the firmware and the big-endian byte packing every frame uses. */
module Units {

  /** `uint8_t` */
  type Byte = b: int | 0 <= b < 0x100
  /** `uint16_t` */
  type U16 = x: int | 0 <= x < 0x1_0000
  /** `uint32_t`, and `unsigned long` on the ESP32 */
  type U32 = x: int | 0 <= x < 0x1_0000_0000

  /** `now - since` on two `unsigned long` timestamps: the subtraction wraps modulo 2^32. */
  function Elapsed(now: U32, since: U32): (d: U32)
    ensures since <= now ==> d == now - since
    ensures now < since ==> d == now - since + 0x1_0000_0000
  {
    (now - since) % 0x1_0000_0000
  }

  /** `(v >> 8) & 0xFF, v & 0xFF`: the low 16 bits of `v`, most significant byte first. */
  function Be16(v: int): (b: seq<Byte>)
    ensures |b| == 2
  {
    [(v / 0x100) % 0x100, v % 0x100]
  }

  /** `(v >> 16) & 0xFF, (v >> 8) & 0xFF, v & 0xFF`: the low 24 bits of `v`, most significant byte first. */
  function Be24(v: int): (b: seq<Byte>)
    ensures |b| == 3
  {
    [(v / 0x1_0000) % 0x100, (v / 0x100) % 0x100, v % 0x100]
  }

  /** What a receiver reassembles from two big-endian bytes. */
  function Decode16(b: seq<Byte>): (v: nat)
    requires |b| == 2
    ensures v < 0x1_0000
  {
    (b[0] as int) * 0x100 + b[1]
  }

  /** What a receiver reassembles from three big-endian bytes. */
  function Decode24(b: seq<Byte>): (v: nat)
    requires |b| == 3
    ensures v < 0x100_0000
  {
    (b[0] as int) * 0x1_0000 + (b[1] as int) * 0x100 + b[2]
  }

  /** Packing two bytes and reassembling them gives back the value modulo 2^16. */
  lemma Be16RoundTrip(v: int)
    ensures Decode16(Be16(v)) == v % 0x1_0000
  {
    var q := v / 0x100;
    assert v == q * 0x100 + v % 0x100;
    assert q == (q / 0x100) * 0x100 + q % 0x100;
    assert v == (q / 0x100) * 0x1_0000 + (q % 0x100) * 0x100 + v % 0x100;
  }

  /** Packing three bytes and reassembling them gives back the value modulo 2^24. */
  lemma Be24RoundTrip(v: int)
    ensures Decode24(Be24(v)) == v % 0x100_0000
  {
    var q := v / 0x100;
    var p := q / 0x100;
    assert v == q * 0x100 + v % 0x100;
    assert q == p * 0x100 + q % 0x100;
    assert p == (p / 0x100) * 0x100 + p % 0x100;
    assert v / 0x1_0000 == p by {
      assert v == p * 0x1_0000 + ((q % 0x100) * 0x100 + v % 0x100);
      ModuloUnique(v, 0x1_0000, p, (q % 0x100) * 0x100 + v % 0x100);
    }
    var low := (p % 0x100) * 0x1_0000 + (q % 0x100) * 0x100 + v % 0x100;
    assert v == (p / 0x100) * 0x100_0000 + low;
    ModuloUnique(v, 0x100_0000, p / 0x100, low);
  }

  /** The other direction: three bytes reassembled and packed again are the same three bytes. */
  lemma Decode24Inverse(b: seq<Byte>)
    requires |b| == 3
    ensures Be24(Decode24(b)) == b
  {
    var v := Decode24(b);
    assert v / 0x100 == (b[0] as int) * 0x100 + b[1];
    assert v / 0x1_0000 == b[0];
  }

  /** Two bytes reassembled and packed again are the same two bytes. */
  lemma Decode16Inverse(b: seq<Byte>)
    requires |b| == 2
    ensures Be16(Decode16(b)) == b
  {
    var v := Decode16(b);
    assert v / 0x100 == b[0];
  }

  /** Euclidean division is unique: a quotient and an in-range remainder determine `/` and `%`. */
  lemma ModuloUnique(n: int, d: int, q: int, r: int)
    requires d > 0 && 0 <= r < d && n == q * d + r
    ensures n / d == q && n % d == r
  {
    var q', r' := n / d, n % d;
    assert n == q' * d + r';
    assert (q - q') * d == r' - r;
    if q' < q {
      MultipleAtLeast(q - q', d);
    } else if q' > q {
      MultipleAtLeast(q' - q, d);
    }
  }

  lemma MultipleAtLeast(m: int, d: int)
    requires m >= 1 && d > 0
    ensures m * d >= d
  {
  }
}
