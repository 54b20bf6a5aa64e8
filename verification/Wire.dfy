/** Bytes, ASCII literals and big-endian integers: the vocabulary shared by the codec,
    the framing and the JSON text modules. */
module Wire {
  type byte = b: int | 0 <= b < 256
  type bytes = seq<byte>

  const QUOTE: byte := 0x22
  const BACKSLASH: byte := 0x5c
  const COMMA: byte := 0x2c
  const COLON: byte := 0x3a

  const TWO_16: int := 0x1_0000
  const TWO_32: int := 0x1_0000_0000
  const TWO_64: int := 0x1_0000_0000_0000_0000

  /** The bytes of an ASCII literal. */
  function Ascii(s: string): (r: bytes)
    requires forall i | 0 <= i < |s| :: s[i] as int < 128
    ensures |r| == |s|
    ensures forall i | 0 <= i < |s| :: r[i] == s[i] as int
  {
    seq(|s|, i requires 0 <= i < |s| => s[i] as int)
  }

  lemma Reassociate(a: bytes, b: bytes, c: bytes)
    ensures (a + b) + c == a + (b + c)
  {
  }

  lemma Regroup(a: bytes, b: bytes, c: bytes, d: bytes)
    ensures a + b + c + d == a + (b + c + d) == a + (b + (c + d))
  {
  }

  /** `v >> (8 * k)`. */
  function Shr8(v: nat, k: nat): nat {
    if k == 0 then v else Shr8(v, k - 1) / 256
  }

  /** The low `k` bytes of `v`, most significant first. Higher bytes are dropped, as an unsigned cast drops them. */
  function ToBE(v: nat, k: nat): (r: bytes)
    ensures |r| == k
  {
    if k == 0 then [] else ToBE(v / 256, k - 1) + [v % 256]
  }

  /** The unsigned integer that big-endian bytes denote. */
  function BE(s: bytes): nat {
    if s == [] then 0 else BE(s[..|s| - 1]) * 256 + s[|s| - 1]
  }

  function Pow256(k: nat): nat {
    if k == 0 then 1 else Pow256(k - 1) * 256
  }

  lemma {:induction false} BEBound(s: bytes)
    ensures BE(s) < Pow256(|s|)
  {
    if s != [] {
      BEBound(s[..|s| - 1]);
    }
  }

  lemma {:induction false} BERoundTrip(v: nat, k: nat)
    requires v < Pow256(k)
    ensures BE(ToBE(v, k)) == v
  {
    if k > 0 {
      BERoundTrip(v / 256, k - 1);
      assert ToBE(v, k)[..k - 1] == ToBE(v / 256, k - 1);
    }
  }

  lemma Pow256Values()
    ensures Pow256(1) == 256 && Pow256(2) == TWO_16 && Pow256(4) == TWO_32 && Pow256(8) == TWO_64
  {
    assert Pow256(3) == 0x100_0000;
    assert Pow256(5) == 0x100_0000_0000;
    assert Pow256(6) == 0x1_0000_0000_0000;
    assert Pow256(7) == 0x100_0000_0000_0000;
  }

  /** Reading back a fixed-width big-endian field. */
  lemma FieldRoundTrip(v: nat)
    ensures v < 256 ==> BE(ToBE(v, 1)) == v
    ensures v < TWO_16 ==> BE(ToBE(v, 2)) == v
    ensures v < TWO_32 ==> BE(ToBE(v, 4)) == v
    ensures v < TWO_64 ==> BE(ToBE(v, 8)) == v
  {
    Pow256Values();
    if v < 256 { BERoundTrip(v, 1); }
    if v < TWO_16 { BERoundTrip(v, 2); }
    if v < TWO_32 { BERoundTrip(v, 4); }
    if v < TWO_64 { BERoundTrip(v, 8); }
  }

  /** Reading any fixed-width field stays within its width. */
  lemma FieldBound(s: bytes)
    ensures |s| == 1 ==> BE(s) < 256
    ensures |s| == 2 ==> BE(s) < TWO_16
    ensures |s| == 4 ==> BE(s) < TWO_32
    ensures |s| == 8 ==> BE(s) < TWO_64
  {
    Pow256Values();
    BEBound(s);
  }
}
