/** The MessagePack subset of the plugin's codec: an independent reference parser over arbitrary bytes,
    the encoding of a value tree, and the laws that connect the two. */
module MsgPack {
  import opened Wire

  /** A value of the subset. `MapOf` lists keys and values in wire order: key, value, key, value, ... */
  datatype Value =
    | Nil
    | Bool(b: bool)
    | UInt(n: nat)
    | Str(s: bytes)
    | ArrayOf(items: seq<Value>)
    | MapOf(kvs: seq<Value>)

  datatype Parsed<+T> = Reject | Accept(value: T, next: nat)

  // ----- Parsing -----

  /** The `k`-byte big-endian integer at `pos`. */
  function FieldAt(buf: bytes, pos: nat, k: nat): Parsed<nat> {
    if pos + k > |buf| then Reject else Accept(BE(buf[pos..pos + k]), pos + k)
  }

  /** How many bytes follow a tag to hold its integer or its length. */
  function Width(tag: byte): nat {
    match tag
    case 0xcc | 0xd9 => 1
    case 0xcd | 0xda | 0xdc | 0xde => 2
    case 0xce | 0xdb | 0xdd | 0xdf => 4
    case 0xcf => 8
    case _ => 0
  }

  function UIntAt(buf: bytes, pos: nat): Parsed<nat> {
    if pos >= |buf| then Reject
    else if buf[pos] <= 0x7f then Accept(buf[pos], pos + 1)
    else if 0xcc <= buf[pos] <= 0xcf then FieldAt(buf, pos + 1, Width(buf[pos]))
    else Reject
  }

  function StrLengthAt(buf: bytes, pos: nat): Parsed<nat> {
    if pos >= |buf| then Reject
    else if 0xa0 <= buf[pos] <= 0xbf then Accept(buf[pos] - 0xa0, pos + 1)
    else if 0xd9 <= buf[pos] <= 0xdb then FieldAt(buf, pos + 1, Width(buf[pos]))
    else Reject
  }

  function StrAt(buf: bytes, pos: nat): Parsed<bytes> {
    match StrLengthAt(buf, pos)
    case Reject => Reject
    case Accept(len, p) => if p + len > |buf| then Reject else Accept(buf[p..p + len], p + len)
  }

  function ArrayHeaderAt(buf: bytes, pos: nat): Parsed<nat> {
    if pos >= |buf| then Reject
    else if 0x90 <= buf[pos] <= 0x9f then Accept(buf[pos] - 0x90, pos + 1)
    else if 0xdc <= buf[pos] <= 0xdd then FieldAt(buf, pos + 1, Width(buf[pos]))
    else Reject
  }

  function MapHeaderAt(buf: bytes, pos: nat): Parsed<nat> {
    if pos >= |buf| then Reject
    else if 0x80 <= buf[pos] <= 0x8f then Accept(buf[pos] - 0x80, pos + 1)
    else if 0xde <= buf[pos] <= 0xdf then FieldAt(buf, pos + 1, Width(buf[pos]))
    else Reject
  }

  /** What the first bytes at `pos` announce: a complete scalar, or a container and its count. */
  datatype Head = Scalar(v: Value) | Items(n: nat) | Pairs(n: nat)

  function HeadAt(buf: bytes, pos: nat): (r: Parsed<Head>)
    ensures r.Accept? ==> pos < r.next <= |buf|
  {
    if pos >= |buf| then Reject
    else if buf[pos] == 0xc0 then Accept(Scalar(Nil), pos + 1)
    else if buf[pos] == 0xc2 then Accept(Scalar(Bool(false)), pos + 1)
    else if buf[pos] == 0xc3 then Accept(Scalar(Bool(true)), pos + 1)
    else if UIntAt(buf, pos).Accept? then Accept(Scalar(UInt(UIntAt(buf, pos).value)), UIntAt(buf, pos).next)
    else if StrAt(buf, pos).Accept? then Accept(Scalar(Str(StrAt(buf, pos).value)), StrAt(buf, pos).next)
    else if ArrayHeaderAt(buf, pos).Accept? then Accept(Items(ArrayHeaderAt(buf, pos).value), ArrayHeaderAt(buf, pos).next)
    else if MapHeaderAt(buf, pos).Accept? then Accept(Pairs(MapHeaderAt(buf, pos).value), MapHeaderAt(buf, pos).next)
    else Reject
  }

  /** The value at `pos`, any value of the subset being allowed as a map key. */
  function Parse(buf: bytes, pos: nat): (r: Parsed<Value>)
    ensures r.Accept? ==> pos < r.next <= |buf|
    decreases |buf| - pos, 0
  {
    match HeadAt(buf, pos)
    case Reject => Reject
    case Accept(Scalar(v), p) => Accept(v, p)
    case Accept(Items(n), p) =>
      (match ParseMany(buf, p, n)
       case Reject => Reject
       case Accept(items, q) => Accept(ArrayOf(items), q))
    case Accept(Pairs(n), p) =>
      (match ParseMany(buf, p, 2 * n)
       case Reject => Reject
       case Accept(kvs, q) => Accept(MapOf(kvs), q))
  }

  /** `n` values in a row. */
  function ParseMany(buf: bytes, pos: nat, n: nat): (r: Parsed<seq<Value>>)
    ensures r.Accept? ==> pos <= r.next && |r.value| == n && (n > 0 ==> r.next <= |buf|)
    ensures r.Accept? && n == 0 ==> r.next == pos
    decreases |buf| - pos, 1, n
  {
    if n == 0 then Accept([], pos)
    else
      match Parse(buf, pos)
      case Reject => Reject
      case Accept(v, p) =>
        match ParseMany(buf, p, n - 1)
        case Reject => Reject
        case Accept(vs, q) => Accept([v] + vs, q)
  }

  /** Every map key, at every depth, is a string. */
  predicate StringKeyed(v: Value) {
    match v
    case ArrayOf(items) => forall i | 0 <= i < |items| :: StringKeyed(items[i])
    case MapOf(kvs) => forall i | 0 <= i < |kvs| :: StringKeyed(kvs[i]) && (i % 2 == 0 ==> kvs[i].Str?)
    case _ => true
  }

  // ----- Fields -----

  /** Distinct string keys. */
  predicate DistinctKeys(kvs: seq<Value>) {
    && |kvs| % 2 == 0
    && (forall i | 0 <= i < |kvs| && i % 2 == 0 :: kvs[i].Str?)
    && forall i, j | 0 <= i < j < |kvs| && i % 2 == 0 && j % 2 == 0 :: kvs[i] != kvs[j]
  }

  ghost predicate HasField(kvs: seq<Value>, key: bytes, v: Value) {
    exists i :: 0 <= i < |kvs| - 1 && i % 2 == 0 && kvs[i] == Str(key) && kvs[i + 1] == v
  }

  // ----- Encoding -----

  /** The trees the writers can express: 64-bit integers, 32-bit string lengths, 16-bit counts. */
  predicate Writable(v: Value) {
    match v
    case UInt(n) => n < TWO_64
    case Str(s) => |s| < TWO_32
    case ArrayOf(items) => |items| < TWO_16 && forall i | 0 <= i < |items| :: Writable(items[i])
    case MapOf(kvs) =>
      |kvs| % 2 == 0 && |kvs| / 2 < TWO_16 && forall i | 0 <= i < |kvs| :: Writable(kvs[i])
    case _ => true
  }

  function EncUInt(v: nat): bytes {
    if v <= 0x7f then [v]
    else if v <= 0xff then [0xcc] + ToBE(v, 1)
    else if v <= 0xffff then [0xcd] + ToBE(v, 2)
    else if v <= 0xffff_ffff then [0xce] + ToBE(v, 4)
    else [0xcf] + ToBE(v, 8)
  }

  function EncStrHeader(len: nat): bytes {
    if len <= 31 then [0xa0 + len]
    else if len <= 0xff then [0xd9] + ToBE(len, 1)
    else if len <= 0xffff then [0xda] + ToBE(len, 2)
    else [0xdb] + ToBE(len, 4)
  }

  function EncStr(s: bytes): bytes { EncStrHeader(|s|) + s }

  /** The count is cut to 16 bits, as the writer's cast cuts it. */
  function EncArrayHeader(count: nat): bytes {
    if count <= 15 then [0x90 + count] else [0xdc] + ToBE(count, 2)
  }

  function EncMapHeader(count: nat): bytes {
    if count <= 15 then [0x80 + count] else [0xde] + ToBE(count, 2)
  }

  function Enc(v: Value): bytes
    decreases v, 1
  {
    match v
    case Nil => [0xc0]
    case Bool(b) => [if b then 0xc3 else 0xc2]
    case UInt(n) => EncUInt(n)
    case Str(s) => EncStr(s)
    case ArrayOf(items) => EncArrayHeader(|items|) + EncMany(items)
    case MapOf(kvs) => EncMapHeader(|kvs| / 2) + EncMany(kvs)
  }

  function EncMany(vs: seq<Value>): bytes
    decreases vs, 0
  {
    if vs == [] then [] else Enc(vs[0]) + EncMany(vs[1..])
  }

  lemma {:induction false} EncManyAppend(vs: seq<Value>, ws: seq<Value>)
    ensures EncMany(vs + ws) == EncMany(vs) + EncMany(ws)
    decreases |vs|
  {
    if vs == [] {
      assert vs + ws == ws;
    } else {
      EncManyAppend(vs[1..], ws);
      assert EncMany(vs + ws) == Enc(vs[0]) + EncMany(vs[1..] + ws) by {
        assert (vs + ws)[0] == vs[0] && (vs + ws)[1..] == vs[1..] + ws;
      }
      Reassociate(Enc(vs[0]), EncMany(vs[1..]), EncMany(ws));
    }
  }

  // ----- Laws -----

  /** `buf'` holds, `delta` bytes further on, the bytes that `buf` holds from `lo` to `hi`. */
  ghost predicate Shifted(buf: bytes, buf': bytes, lo: nat, hi: nat, delta: int) {
    && lo <= hi <= |buf| && 0 <= lo + delta && hi + delta <= |buf'|
    && forall i | lo <= i < hi :: buf[i] == buf'[i + delta]
  }

  lemma ShiftedSlice(buf: bytes, buf': bytes, lo: nat, hi: nat, delta: int)
    requires Shifted(buf, buf', lo, hi, delta)
    ensures buf[lo..hi] == buf'[lo + delta..hi + delta]
  {
  }

  lemma FieldIsLocal(buf: bytes, buf': bytes, pos: nat, k: nat, hi: nat, delta: int)
    requires Shifted(buf, buf', pos, hi, delta) && pos + k <= hi
    ensures FieldAt(buf', pos + delta, k) == Accept(FieldAt(buf, pos, k).value, pos + k + delta)
  {
    ShiftedSlice(buf, buf', pos, pos + k, delta);
  }

  lemma HeadIsLocal(buf: bytes, buf': bytes, pos: nat, hi: nat, delta: int)
    requires HeadAt(buf, pos).Accept? && HeadAt(buf, pos).next <= hi
    requires Shifted(buf, buf', pos, hi, delta)
    ensures HeadAt(buf', pos + delta) == Accept(HeadAt(buf, pos).value, HeadAt(buf, pos).next + delta)
  {
    var k := Width(buf[pos]);
    if pos + 1 + k <= hi {
      FieldIsLocal(buf, buf', pos + 1, k, hi, delta);
    }
    if StrAt(buf, pos).Accept? {
      ShiftedSlice(buf, buf', StrLengthAt(buf, pos).next, StrAt(buf, pos).next, delta);
    }
  }

  /** What a parse returns depends only on the bytes it consumes, not on where they lie or what surrounds them. */
  lemma {:induction false} ParseIsLocal(buf: bytes, buf': bytes, pos: nat, delta: int)
    requires Parse(buf, pos).Accept?
    requires Shifted(buf, buf', pos, Parse(buf, pos).next, delta)
    ensures Parse(buf', pos + delta) == Accept(Parse(buf, pos).value, Parse(buf, pos).next + delta)
    decreases |buf| - pos, 0
  {
    HeadIsLocal(buf, buf', pos, Parse(buf, pos).next, delta);
    var p := HeadAt(buf, pos).next;
    match HeadAt(buf, pos).value
    case Scalar(_) =>
    case Items(n) => ParseManyIsLocal(buf, buf', p, n, delta);
    case Pairs(n) => ParseManyIsLocal(buf, buf', p, 2 * n, delta);
  }

  lemma {:induction false} ParseManyIsLocal(buf: bytes, buf': bytes, pos: nat, n: nat, delta: int)
    requires ParseMany(buf, pos, n).Accept?
    requires Shifted(buf, buf', pos, ParseMany(buf, pos, n).next, delta)
    ensures ParseMany(buf', pos + delta, n) ==
      Accept(ParseMany(buf, pos, n).value, ParseMany(buf, pos, n).next + delta)
    decreases |buf| - pos, 1, n
  {
    if n > 0 {
      var v, p := Parse(buf, pos).value, Parse(buf, pos).next;
      assert Parse(buf', pos + delta) == Accept(v, p + delta) by { ParseIsLocal(buf, buf', pos, delta); }
      var rest := ParseMany(buf, p, n - 1);
      assert ParseMany(buf', p + delta, n - 1) == Accept(rest.value, rest.next + delta) by {
        ParseManyIsLocal(buf, buf', p, n - 1, delta);
      }
    }
  }

  /** A parse that accepts a slice accepts it in place. */
  lemma ParseInPlace(pre: bytes, mid: bytes, post: bytes, v: Value)
    requires Parse(mid, 0) == Accept(v, |mid|)
    ensures Parse(pre + mid + post, |pre|) == Accept(v, |pre| + |mid|)
  {
    ParseIsLocal(mid, pre + mid + post, 0, |pre|);
  }

  /** The bytes a parse consumes, taken alone, are exactly one value. */
  lemma ParseSlice(buf: bytes, pos: nat)
    requires Parse(buf, pos).Accept?
    ensures var q := Parse(buf, pos).next; Parse(buf[pos..q], 0) == Accept(Parse(buf, pos).value, q - pos)
  {
    var delta: int := 0 - pos;
    ParseIsLocal(buf, buf[pos..Parse(buf, pos).next], pos, delta);
  }

  lemma ParseManyInPlace(pre: bytes, mid: bytes, n: nat)
    requires ParseMany(mid, 0, n).Accept? && ParseMany(mid, 0, n).next == |mid|
    ensures ParseMany(pre + mid, |pre|, n) == Accept(ParseMany(mid, 0, n).value, |pre| + |mid|)
  {
    ParseManyIsLocal(mid, pre + mid, 0, n, |pre|);
  }

  /** An array count reads back exactly when it fits the writer's 16-bit field. */
  lemma ArrayHeaderReadsBack(count: nat, rest: bytes)
    ensures ArrayHeaderAt(EncArrayHeader(count) + rest, 0) == Accept(count, |EncArrayHeader(count)|) <==> count < TWO_16
  {
    var buf := EncArrayHeader(count) + rest;
    FieldRoundTrip(count);
    FieldBound(ToBE(count, 2));
    if count > 15 { assert buf[1..3] == ToBE(count, 2); }
  }

  lemma MapHeaderReadsBack(count: nat, rest: bytes)
    ensures MapHeaderAt(EncMapHeader(count) + rest, 0) == Accept(count, |EncMapHeader(count)|) <==> count < TWO_16
  {
    var buf := EncMapHeader(count) + rest;
    FieldRoundTrip(count);
    FieldBound(ToBE(count, 2));
    if count > 15 { assert buf[1..3] == ToBE(count, 2); }
  }

  lemma UIntReadsBack(n: nat)
    ensures UIntAt(EncUInt(n), 0) == Accept(n, |EncUInt(n)|) <==> n < TWO_64
  {
    var buf := EncUInt(n);
    if n > 0x7f {
      FieldRoundTrip(n);
      assert buf[1..] == buf[1..|buf|];
      FieldBound(buf[1..]);
      if n <= 0xff {
      } else if n < TWO_16 {
      } else if n < TWO_32 {
      }
    }
  }

  lemma StrLengthReadsBack(len: nat, rest: bytes)
    requires len < TWO_32
    ensures StrLengthAt(EncStrHeader(len) + rest, 0) == Accept(len, |EncStrHeader(len)|)
  {
    var h := EncStrHeader(len);
    var buf := h + rest;
    FieldRoundTrip(len);
    assert buf[0] == h[0];
    if len > 31 { assert buf[1..|h|] == h[1..]; }
  }

  lemma StrReadsBack(s: bytes)
    requires |s| < TWO_32
    ensures StrAt(EncStr(s), 0) == Accept(s, |EncStr(s)|)
  {
    var buf, h := EncStr(s), EncStrHeader(|s|);
    StrLengthReadsBack(|s|, s);
    assert buf[|h|..|h| + |s|] == s;
  }

  lemma HeadReadsBack(v: Value)
    requires Writable(v)
    ensures match v
            case ArrayOf(items) => HeadAt(Enc(v), 0) == Accept(Items(|items|), |EncArrayHeader(|items|)|)
            case MapOf(kvs) => HeadAt(Enc(v), 0) == Accept(Pairs(|kvs| / 2), |EncMapHeader(|kvs| / 2)|)
            case _ => HeadAt(Enc(v), 0) == Accept(Scalar(v), |Enc(v)|)
  {
    match v
    case UInt(n) => UIntReadsBack(n);
    case Str(s) => StrReadsBack(s);
    case ArrayOf(items) => ArrayHeaderReadsBack(|items|, EncMany(items));
    case MapOf(kvs) => MapHeaderReadsBack(|kvs| / 2, EncMany(kvs));
    case _ =>
  }

  /** Round trip: parsing the encoding of a writable tree returns the tree and consumes exactly the encoding. */
  lemma {:induction false} ParseEnc(v: Value)
    requires Writable(v)
    ensures Parse(Enc(v), 0) == Accept(v, |Enc(v)|)
    decreases v, 1
  {
    HeadReadsBack(v);
    match v
    case ArrayOf(items) =>
      ParseEncMany(items);
      ParseManyInPlace(EncArrayHeader(|items|), EncMany(items), |items|);
    case MapOf(kvs) =>
      ParseEncMany(kvs);
      ParseManyInPlace(EncMapHeader(|kvs| / 2), EncMany(kvs), |kvs|);
      assert 2 * (|kvs| / 2) == |kvs|;
    case _ =>
  }

  lemma {:induction false} ParseEncMany(vs: seq<Value>)
    requires forall i | 0 <= i < |vs| :: Writable(vs[i])
    ensures ParseMany(EncMany(vs), 0, |vs|) == Accept(vs, |EncMany(vs)|)
    decreases vs, 0
  {
    if vs != [] {
      var hd, tl := Enc(vs[0]), EncMany(vs[1..]);
      ParseEnc(vs[0]);
      ParseInPlace([], hd, tl, vs[0]);
      assert [] + hd + tl == hd + tl;
      ParseEncMany(vs[1..]);
      ParseManyInPlace(hd, tl, |vs| - 1);
      assert [vs[0]] + vs[1..] == vs;
    }
  }

  /** Round trip inside a larger buffer, whatever follows. */
  lemma ParseEncThenAnything(v: Value, rest: bytes)
    requires Writable(v)
    ensures Parse(Enc(v) + rest, 0) == Accept(v, |Enc(v)|)
  {
    ParseEnc(v);
    ParseInPlace([], Enc(v), rest, v);
    assert [] + Enc(v) + rest == Enc(v) + rest;
  }

  /** The encoding is prefix-free, hence injective: no writable tree's encoding starts with another's. */
  lemma EncIsPrefixFree(v: Value, w: Value, rest: bytes)
    requires Writable(v) && Writable(w)
    requires Enc(v) == Enc(w) + rest
    ensures v == w && rest == []
  {
    ParseEnc(v);
    ParseEncThenAnything(w, rest);
  }

  /** The writers choose the shortest form: whatever bytes parse to a tree, the tree's encoding is no longer. */
  lemma {:induction false} EncIsShortest(buf: bytes, pos: nat)
    requires Parse(buf, pos).Accept?
    ensures |Enc(Parse(buf, pos).value)| <= Parse(buf, pos).next - pos
    decreases |buf| - pos, 0
  {
    HeadIsShortest(buf, pos);
    var p := HeadAt(buf, pos).next;
    match HeadAt(buf, pos).value
    case Scalar(_) =>
    case Items(n) => EncManyIsShortest(buf, p, n);
    case Pairs(n) => EncManyIsShortest(buf, p, 2 * n);
  }

  lemma HeadIsShortest(buf: bytes, pos: nat)
    requires HeadAt(buf, pos).Accept?
    ensures match HeadAt(buf, pos).value
            case Scalar(v) => |Enc(v)| <= HeadAt(buf, pos).next - pos
            case Items(n) => |EncArrayHeader(n)| <= HeadAt(buf, pos).next - pos
            case Pairs(n) => |EncMapHeader(n)| <= HeadAt(buf, pos).next - pos
  {
    var k := Width(buf[pos]);
    if pos + 1 + k <= |buf| {
      FieldBound(buf[pos + 1..pos + 1 + k]);
    }
  }

  lemma {:induction false} EncManyIsShortest(buf: bytes, pos: nat, n: nat)
    requires ParseMany(buf, pos, n).Accept?
    ensures |EncMany(ParseMany(buf, pos, n).value)| <= ParseMany(buf, pos, n).next - pos
    decreases |buf| - pos, 1, n
  {
    if n > 0 {
      EncIsShortest(buf, pos);
      EncManyIsShortest(buf, Parse(buf, pos).next, n - 1);
      var vs := ParseMany(buf, pos, n).value;
      assert vs[1..] == ParseMany(buf, Parse(buf, pos).next, n - 1).value;
    }
  }

  // ----- The format, byte by byte -----

  lemma BE2(a: byte, b: byte)
    ensures BE([a, b]) == 256 * a + b
  {
    assert [a, b][..1] == [a] && [a][..0] == [];
    assert BE([a]) == a;
  }

  lemma BE4(a: byte, b: byte, c: byte, d: byte)
    ensures BE([a, b, c, d]) == 256 * (256 * (256 * a + b) + c) + d
  {
    assert [a, b, c, d][..3] == [a, b, c] && [a, b, c][..2] == [a, b];
    BE2(a, b);
  }

  lemma BE8(s: bytes)
    requires |s| == 8
    ensures BE(s) == TWO_32 * BE(s[..4]) + BE(s[4..])
  {
    BE4(s[0], s[1], s[2], s[3]);
    BE4(s[4], s[5], s[6], s[7]);
    assert s[..4] == [s[0], s[1], s[2], s[3]] && s[4..] == [s[4], s[5], s[6], s[7]];
    assert s[..7][..6] == s[..6] && s[..6][..5] == s[..5] && s[..5][..4] == s[..4];
    assert BE(s[..5]) == BE(s[..4]) * 256 + s[4];
    assert BE(s[..6]) == BE(s[..5]) * 256 + s[5];
    assert BE(s[..7]) == BE(s[..6]) * 256 + s[6];
  }

  lemma FieldIs(tag: byte, field: bytes, rest: bytes)
    ensures var buf := [tag] + field + rest; FieldAt(buf, 1, |field|) == Accept(BE(field), 1 + |field|)
  {
    var buf := [tag] + field + rest;
    assert buf[1..1 + |field|] == field;
  }

  /** One byte of tag, then the number's bytes, most significant first; small numbers are their own tag. */
  lemma UIntFormat(a: byte, b: byte, c: byte, d: byte, low: bytes, rest: bytes)
    requires |low| == 4
    ensures a <= 0x7f ==> UIntAt([a] + rest, 0) == Accept(a, 1)
    ensures UIntAt([0xcc] + [a] + rest, 0) == Accept(a, 2)
    ensures UIntAt([0xcd] + [a, b] + rest, 0) == Accept(256 * a + b, 3)
    ensures UIntAt([0xce] + [a, b, c, d] + rest, 0) == Accept(256 * (256 * (256 * a + b) + c) + d, 5)
    ensures UIntAt([0xcf] + ([a, b, c, d] + low) + rest, 0) ==
      Accept(TWO_32 * (256 * (256 * (256 * a + b) + c) + d) + BE(low), 9)
  {
    FieldIs(0xcc, [a], rest);
    FieldIs(0xcd, [a, b], rest);
    FieldIs(0xce, [a, b, c, d], rest);
    FieldIs(0xcf, [a, b, c, d] + low, rest);
    BE2(a, b);
    BE4(a, b, c, d);
    BE8([a, b, c, d] + low);
    assert ([a, b, c, d] + low)[..4] == [a, b, c, d] && ([a, b, c, d] + low)[4..] == low;
    assert [a][..0] == [];
  }

  /** Lengths of strings and counts of containers, in every class. */
  lemma LengthFormat(n: byte, a: byte, b: byte, c: byte, d: byte, rest: bytes)
    ensures n <= 31 ==> StrLengthAt([0xa0 + n] + rest, 0) == Accept(n, 1)
    ensures StrLengthAt([0xd9] + [a] + rest, 0) == Accept(a, 2)
    ensures StrLengthAt([0xda] + [a, b] + rest, 0) == Accept(256 * a + b, 3)
    ensures StrLengthAt([0xdb] + [a, b, c, d] + rest, 0) == Accept(256 * (256 * (256 * a + b) + c) + d, 5)
    ensures n <= 15 ==> ArrayHeaderAt([0x90 + n] + rest, 0) == Accept(n, 1)
    ensures ArrayHeaderAt([0xdc] + [a, b] + rest, 0) == Accept(256 * a + b, 3)
    ensures ArrayHeaderAt([0xdd] + [a, b, c, d] + rest, 0) == Accept(256 * (256 * (256 * a + b) + c) + d, 5)
    ensures n <= 15 ==> MapHeaderAt([0x80 + n] + rest, 0) == Accept(n, 1)
    ensures MapHeaderAt([0xde] + [a, b] + rest, 0) == Accept(256 * a + b, 3)
    ensures MapHeaderAt([0xdf] + [a, b, c, d] + rest, 0) == Accept(256 * (256 * (256 * a + b) + c) + d, 5)
  {
    FieldIs(0xd9, [a], rest);
    FieldIs(0xda, [a, b], rest);
    FieldIs(0xdb, [a, b, c, d], rest);
    FieldIs(0xdc, [a, b], rest);
    FieldIs(0xdd, [a, b, c, d], rest);
    FieldIs(0xde, [a, b], rest);
    FieldIs(0xdf, [a, b, c, d], rest);
    BE2(a, b);
    BE4(a, b, c, d);
    assert [a][..0] == [];
  }

  /** Nil, the booleans, and a string behind its length; containers hold what stands behind their count. */
  lemma ValueFormat(s: bytes, rest: bytes)
    ensures Parse([0xc0] + rest, 0) == Accept(Nil, 1)
    ensures Parse([0xc2] + rest, 0) == Accept(Bool(false), 1) && Parse([0xc3] + rest, 0) == Accept(Bool(true), 1)
    ensures |s| <= 31 ==> Parse([0xa0 + |s|] + s + rest, 0) == Accept(Str(s), 1 + |s|)
    ensures Parse([0x91, 0xc3] + rest, 0) == Accept(ArrayOf([Bool(true)]), 2)
    ensures Parse([0x81, 0xa1, 0x6b, 0xc3] + rest, 0) == Accept(MapOf([Str([0x6b]), Bool(true)]), 4)
  {
    if |s| <= 31 {
      var buf := [0xa0 + |s|] + s + rest;
      assert buf[1..1 + |s|] == s;
    }
    ArrayOfOne(rest);
    MapOfOne(rest);
  }

  lemma ArrayOfOne(rest: bytes)
    ensures Parse([0x91, 0xc3] + rest, 0) == Accept(ArrayOf([Bool(true)]), 2)
  {
    var buf := [0x91, 0xc3] + rest;
    assert ParseMany(buf, 2, 0) == Accept([], 2);
    assert Parse(buf, 1) == Accept(Bool(true), 2);
    assert ParseMany(buf, 1, 1) == Accept([Bool(true)] + [], 2);
    assert [Bool(true)] + [] == [Bool(true)];
    assert HeadAt(buf, 0) == Accept(Items(1), 1);
  }

  lemma MapOfOne(rest: bytes)
    ensures Parse([0x81, 0xa1, 0x6b, 0xc3] + rest, 0) == Accept(MapOf([Str([0x6b]), Bool(true)]), 4)
  {
    var buf := [0x81, 0xa1, 0x6b, 0xc3] + rest;
    assert buf[2..3] == [0x6b];
    assert Parse(buf, 1) == Accept(Str([0x6b]), 3) && Parse(buf, 3) == Accept(Bool(true), 4);
    assert ParseMany(buf, 4, 0) == Accept([], 4);
    assert ParseMany(buf, 3, 1) == Accept([Bool(true)] + [], 4);
    assert ParseMany(buf, 1, 2) == Accept([Str([0x6b])] + ([Bool(true)] + []), 4);
    assert [Str([0x6b])] + ([Bool(true)] + []) == [Str([0x6b]), Bool(true)];
    assert HeadAt(buf, 0) == Accept(Pairs(1), 1) && ParseMany(buf, 1, 2 * 1) == ParseMany(buf, 1, 2);
  }
}
