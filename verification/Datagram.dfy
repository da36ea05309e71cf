/** HTTP datagrams of CONNECT-UDP: the context-ID codec (native_udp_protocol.go) over QUIC variable-length
    integers (section 16 of RFC 9000). */
module Datagram {
  import opened Net
  import opened Padding

  const CONTEXT_ID: nat := 0
  const MAX_UDP_PAYLOAD := 65535

  // ---------- Variable-length integers ----------

  /** Values an n-byte integer can carry. */
  function Limit(n: nat): nat {
    if n == 1 then 0x40 else if n == 2 then 0x4000 else if n == 4 then 0x4000_0000 else 0x4000_0000_0000_0000
  }

  /** The length the two top bits of the first byte announce. */
  function AnnouncedLen(first: Byte): nat {
    if first < 64 then 1 else if first < 128 then 2 else if first < 192 then 4 else 8
  }

  function Tag(n: nat): nat {
    if n == 1 then 0 else if n == 2 then 1 else if n == 4 then 2 else 3
  }

  /** The minimal length of a value. */
  function VarintLen(v: nat): nat
    requires v < Limit(8)
  {
    if v < Limit(1) then 1 else if v < Limit(2) then 2 else if v < Limit(4) then 4 else 8
  }

  function BigEndian(b: seq<Byte>): nat {
    if b == [] then 0 else BigEndian(b[..|b| - 1]) * 256 + b[|b| - 1] as nat
  }

  function ToBigEndian(v: nat, n: nat): seq<Byte> {
    if n == 0 then [] else ToBigEndian(v / 256, n - 1) + [(v % 256) as Byte]
  }

  /** Value and bytes consumed; None is truncated input. */
  function VarintParse(b: seq<Byte>): (r: Option<(nat, nat)>)
    ensures r.Some? ==> r.value.0 < Limit(8) && r.value.1 <= |b|
  {
    if b == [] || |b| < AnnouncedLen(b[0]) then None
    else
      var n := AnnouncedLen(b[0]);
      Some((BigEndian(b[..n]) % Limit(n), n))
  }

  function VarintAppend(v: nat): seq<Byte>
    requires v < Limit(8)
  {
    var n := VarintLen(v);
    ToBigEndian(Tag(n) * Limit(n) + v, n)
  }

  function Pow256(n: nat): nat {
    if n == 0 then 1 else 256 * Pow256(n - 1)
  }

  lemma {:induction false} BigEndianOfTo(v: nat, n: nat)
    requires v < Pow256(n)
    ensures |ToBigEndian(v, n)| == n && BigEndian(ToBigEndian(v, n)) == v
  {
    if n > 0 {
      BigEndianOfTo(v / 256, n - 1);
      var b := ToBigEndian(v, n);
      assert b[..|b| - 1] == ToBigEndian(v / 256, n - 1);
    }
  }

  lemma {:induction false} ToOfBigEndian(b: seq<Byte>)
    ensures BigEndian(b) < Pow256(|b|) && ToBigEndian(BigEndian(b), |b|) == b
  {
    if b != [] {
      var n := |b| - 1;
      ToOfBigEndian(b[..n]);
      assert b == b[..n] + [b[n]];
    }
  }

  lemma {:induction false} BigEndianSplit(b: seq<Byte>)
    requires b != []
    ensures BigEndian(b) == b[0] as nat * Pow256(|b| - 1) + BigEndian(b[1..])
  {
    var n := |b| - 1;
    if n == 0 {
      assert b[..0] == [] && b[1..] == [];
    } else {
      BigEndianSplit(b[..n]);
      assert b[1..][..n - 1] == b[..n][1..];
      var p := Pow256(n - 1);
      assert b[0] as nat * (256 * p) == (b[0] as nat * p) * 256;
    }
  }

  lemma {:induction false} Multiples(d: int, z: int)
    requires d > 0
    ensures z >= 1 ==> d * z >= d
    ensures z <= -1 ==> d * z <= -d
  {
  }

  lemma {:induction false} DivUnique(a: nat, d: nat, q: nat, m: nat)
    requires d > 0 && a == d * q + m && m < d
    ensures a / d == q && a % d == m
  {
    Multiples(d, a / d - q);
    assert d * (a / d - q) == m - a % d;
  }

  lemma Powers()
    ensures Pow256(0) == 1 && Pow256(1) == 0x100 && Pow256(3) == 0x100_0000 && Pow256(7) == 0x100_0000_0000_0000
    ensures Pow256(2) == 0x1_0000 && Pow256(4) == 0x1_0000_0000 && Pow256(8) == 0x1_0000_0000_0000_0000
  {
    assert Pow256(2) == 256 * Pow256(1);
    assert Pow256(4) == 256 * (256 * Pow256(2));
    assert Pow256(6) == 256 * (256 * Pow256(4));
    assert Pow256(8) == 256 * (256 * Pow256(6));
  }

  predicate IsLen(n: nat) {
    n == 1 || n == 2 || n == 4 || n == 8
  }

  lemma {:induction false} LimitIsPower(n: nat)
    requires IsLen(n)
    ensures Limit(n) == 64 * Pow256(n - 1) && 4 * Limit(n) == Pow256(n)
  {
    Powers();
  }

  lemma {:induction false} TopBits(first: nat, r: nat, p: nat)
    requires r < p
    ensures (first * p + r) / (64 * p) == first / 64
  {
    var t, u := first / 64, first % 64;
    assert first * p == (64 * t + u) * p == (64 * p) * t + u * p;
    UnderLimit(u, r, p);
    DivUnique(first * p + r, 64 * p, t, u * p + r);
  }

  /** The top two bits of the first byte are the integer divided by the value range. */
  lemma {:induction false} TagOfFirst(b: seq<Byte>)
    requires IsLen(|b|)
    ensures BigEndian(b) / Limit(|b|) == b[0] as nat / 64
  {
    LimitIsPower(|b|);
    BigEndianSplit(b);
    ToOfBigEndian(b[1..]);
    TopBits(b[0] as nat, BigEndian(b[1..]), Pow256(|b| - 1));
  }

  lemma {:induction false} UnderLimit(u: nat, r: nat, p: nat)
    requires u < 64 && r < p
    ensures u * p + r < 64 * p
  {
    assert u * p <= 63 * p;
  }

  lemma {:induction false} AppendShape(v: nat)
    requires v < Limit(8)
    ensures var n, b := VarintLen(v), VarintAppend(v);
            |b| == n && BigEndian(b) == Tag(n) * Limit(n) + v && AnnouncedLen(b[0]) == n
  {
    var n := VarintLen(v);
    LimitIsPower(n);
    BigEndianOfTo(Tag(n) * Limit(n) + v, n);
    TagOfFirst(VarintAppend(v));
    DivUnique(Tag(n) * Limit(n) + v, Limit(n), Tag(n), v);
  }

  /** The form of section 16 of RFC 9000: 1, 2, 4 or 8 bytes for values below 2^6, 2^14, 2^30 and 2^62, the two
      top bits of the first byte giving the length. */
  lemma {:induction false} VarintForm(v: nat)
    requires v < 0x4000_0000_0000_0000
    ensures var b := VarintAppend(v);
            |b| == (if v < 0x40 then 1 else if v < 0x4000 then 2 else if v < 0x4000_0000 then 4 else 8) &&
            BigEndian(b) == v + (if v < 0x40 then 0 else if v < 0x4000 then 0x4000 else if v < 0x4000_0000 then 0x8000_0000
                                 else 0xC000_0000_0000_0000)
  {
    AppendShape(v);
  }

  /** A value parses in its minimal length exactly when the input starts with its canonical encoding. */
  lemma {:induction false} MinimalParse(d: seq<Byte>, v: nat)
    requires v < Limit(8)
    ensures VarintParse(d) == Some((v, VarintLen(v))) <==> VarintAppend(v) <= d
  {
    AppendShape(v);
    var n, a := VarintLen(v), VarintAppend(v);
    DivUnique(Tag(n) * Limit(n) + v, Limit(n), Tag(n), v);
    if a <= d {
      assert d[..n] == a && d[0] == a[0];
    }
    if VarintParse(d) == Some((v, n)) {
      CanonicalPrefix(d[..n], v);
    }
  }

  lemma {:induction false} FromQuotient(x: nat, d: nat, q: nat, r: nat)
    requires d > 0 && x / d == q && x % d == r
    ensures x == q * d + r
  {
  }

  lemma {:induction false} CanonicalPrefix(b: seq<Byte>, v: nat)
    requires v < Limit(8) && |b| == VarintLen(v) && AnnouncedLen(b[0]) == |b| && BigEndian(b) % Limit(|b|) == v
    ensures b == VarintAppend(v)
  {
    TagOfFirst(b);
    assert b[0] as nat / 64 == Tag(|b|);
    FromQuotient(BigEndian(b), Limit(|b|), Tag(|b|), v);
    ToOfBigEndian(b);
  }

  // ---------- The datagram codec ----------

  /** None is a malformed datagram. */
  function Decode(datagram: seq<Byte>): Option<seq<Byte>> {
    var parsed := VarintParse(datagram);
    if parsed.None? || parsed.value.1 != VarintLen(parsed.value.0) || parsed.value.0 != CONTEXT_ID then None
    else Some(datagram[parsed.value.1..])
  }

  function Encode(payload: seq<Byte>): seq<Byte> {
    VarintAppend(CONTEXT_ID) + payload
  }

  /** The encoding of context 0 is one zero byte before the payload. */
  lemma {:induction false} EncodingIsZeroByte(payload: seq<Byte>)
    ensures Encode(payload) == [0] + payload
  {
    assert ToBigEndian(0, 1) == ToBigEndian(0, 0) + [0];
  }

  /** A datagram is accepted exactly when it is the canonical encoding of its payload: one zero byte and then
      the payload. */
  lemma {:induction false} AcceptedExactlyCanonical(datagram: seq<Byte>, payload: seq<Byte>)
    ensures Decode(datagram) == Some(payload) <==> datagram == Encode(payload)
    ensures Decode(datagram) == Some(payload) <==> datagram == [0] + payload
  {
    EncodingIsZeroByte(payload);
    MinimalParse(datagram, CONTEXT_ID);
    AppendShape(CONTEXT_ID);
    var head := VarintAppend(CONTEXT_ID);
    if Decode(datagram) == Some(payload) {
      assert head <= datagram;
      assert datagram == datagram[..|head|] + datagram[|head|..];
    }
    if datagram == Encode(payload) {
      assert head <= datagram;
      assert datagram[|head|..] == payload;
    }
  }
}
