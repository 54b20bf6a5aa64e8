/** The plugin's reader: a cursor over a byte buffer, its typed reads, the structural skipper
    and the MessagePack-to-JSON translator, each proved against the reference parser. */
module MsgPackReader {
  import opened Wire
  import opened MsgPack
  import opened JsonText

  /** Values already read, in front of those still to come. */
  function After(vs: seq<Value>, r: Parsed<seq<Value>>): Parsed<seq<Value>> {
    match r
    case Reject => Reject
    case Accept(ws, q) => Accept(vs + ws, q)
  }

  lemma AfterNothing(r: Parsed<seq<Value>>)
    ensures After([], r) == r
  {
    if r.Accept? { assert [] + r.value == r.value; }
  }

  /** Reading one more value moves it from the rest to the front. */
  lemma AfterOne(buf: bytes, vs: seq<Value>, pos: nat, m: nat)
    requires m > 0
    ensures Parse(buf, pos).Reject? ==> After(vs, ParseMany(buf, pos, m)).Reject?
    ensures Parse(buf, pos).Accept? ==>
      && After(vs, ParseMany(buf, pos, m)) ==
         After(vs + [Parse(buf, pos).value], ParseMany(buf, Parse(buf, pos).next, m - 1))
      && (After(vs, ParseMany(buf, pos, m)).Accept? ==>
          After(vs, ParseMany(buf, pos, m)).value[|vs|] == Parse(buf, pos).value)
  {
    if Parse(buf, pos).Accept? {
      var v := Parse(buf, pos).value;
      var rest := ParseMany(buf, Parse(buf, pos).next, m - 1);
      if rest.Accept? {
        assert vs + ([v] + rest.value) == vs + [v] + rest.value;
      }
    }
  }

  lemma StringsParse(buf: bytes, pos: nat)
    ensures StrAt(buf, pos).Accept? <==> Parse(buf, pos).Accept? && Parse(buf, pos).value.Str?
    ensures StrAt(buf, pos).Accept? ==> Parse(buf, pos) == Accept(Str(StrAt(buf, pos).value), StrAt(buf, pos).next)
  {
  }

  /** Keys and values that the translator can render. */
  predicate AllKeyed(kvs: seq<Value>) { StringKeyed(MapOf(kvs)) }

  predicate AllItemsKeyed(items: seq<Value>) { StringKeyed(ArrayOf(items)) }

  /** One field as the translator reads it: a string key, then a value it can render. */
  function KeyedField(buf: bytes, pos: nat): (r: Parsed<seq<Value>>)
    ensures r.Accept? ==> |r.value| == 2 && r.value[0].Str? && pos < r.next <= |buf|
  {
    if StrAt(buf, pos).Reject? then Reject
    else
      match Parse(buf, StrAt(buf, pos).next)
      case Reject => Reject
      case Accept(v, q) => if StringKeyed(v) then Accept([Str(StrAt(buf, pos).value), v], q) else Reject
  }

  function KeyedFields(buf: bytes, pos: nat, n: nat): Parsed<seq<Value>>
    decreases n
  {
    if n == 0 then Accept([], pos)
    else
      match KeyedField(buf, pos)
      case Reject => Reject
      case Accept(kv, q) => After(kv, KeyedFields(buf, q, n - 1))
  }

  function RenderField(kv: seq<Value>): bytes
    requires |kv| == 2 && kv[0].Str?
  {
    Literal(kv[0].s) + [COLON] + Render(kv[1])
  }

  /** The translator has read `kvs`, has `m` fields to go from `pos` on, and has written `json`. */
  ghost predicate FieldsRead(all: Parsed<seq<Value>>, kvs: seq<Value>, buf: bytes, pos: nat, m: nat, json: bytes) {
    all == After(kvs, KeyedFields(buf, pos, m)) && json == RenderFields(kvs)
  }

  lemma OneMoreField(all: Parsed<seq<Value>>, kvs: seq<Value>, buf: bytes, pos: nat, m: nat, json: bytes)
    requires m > 0 && FieldsRead(all, kvs, buf, pos, m, json)
    ensures KeyedField(buf, pos).Reject? ==> all.Reject?
    ensures KeyedField(buf, pos).Accept? ==>
      var Accept(kv, q) := KeyedField(buf, pos);
      FieldsRead(all, kvs + kv, buf, q, m - 1, json + (if kvs != [] then [COMMA] else []) + RenderField(kv))
  {
    if KeyedField(buf, pos).Accept? {
      var Accept(kv, q) := KeyedField(buf, pos);
      var rest := KeyedFields(buf, q, m - 1);
      if rest.Accept? { assert kvs + (kv + rest.value) == kvs + kv + rest.value; }
      assert kv == [Str(kv[0].s), kv[1]];
      RenderFieldJoins(kvs, kv[0].s, kv[1]);
    }
  }

  /** The same for the items of an array. */
  ghost predicate ItemsRead(all: Parsed<seq<Value>>, items: seq<Value>, buf: bytes, pos: nat, m: nat, json: bytes) {
    all == After(items, ParseMany(buf, pos, m)) && json == RenderItems(items) && AllItemsKeyed(items)
  }

  lemma OneMoreItem(all: Parsed<seq<Value>>, items: seq<Value>, buf: bytes, pos: nat, m: nat, json: bytes)
    requires m > 0 && ItemsRead(all, items, buf, pos, m, json)
    ensures Parse(buf, pos).Reject? ==> all.Reject?
    ensures Parse(buf, pos).Accept? ==>
      var Accept(v, q) := Parse(buf, pos);
      if StringKeyed(v)
      then ItemsRead(all, items + [v], buf, q, m - 1, json + (if items != [] then [COMMA] else []) + Render(v))
      else all.Accept? ==> !AllItemsKeyed(all.value)
  {
    AfterOne(buf, items, pos, m);
    if Parse(buf, pos).Accept? {
      var v := Parse(buf, pos).value;
      RenderItemsSnoc(items, v);
      assert (items + [v])[|items|] == v;
      if all.Accept? { assert all.value[|items|] == v; }
    }
  }

  lemma AllItemsRead(all: Parsed<seq<Value>>, items: seq<Value>, buf: bytes, pos: nat, json: bytes)
    requires ItemsRead(all, items, buf, pos, 0, json)
    ensures all == Accept(items, pos) && json == RenderItems(items) && AllItemsKeyed(items)
  {
    assert items + [] == items;
  }

  lemma NoFieldYet(buf: bytes, pos: nat, n: nat)
    ensures FieldsRead(KeyedFields(buf, pos, n), [], buf, pos, n, [])
  {
    AfterNothing(KeyedFields(buf, pos, n));
  }

  lemma AllFieldsRead(all: Parsed<seq<Value>>, kvs: seq<Value>, buf: bytes, pos: nat, json: bytes)
    requires FieldsRead(all, kvs, buf, pos, 0, json)
    ensures all == Accept(kvs, pos) && json == RenderFields(kvs)
  {
    assert kvs + [] == kvs;
  }

  lemma AllKeyedFront(k: Value, v: Value, kvs: seq<Value>)
    ensures AllKeyed([k, v] + kvs) <==> k.Str? && StringKeyed(v) && AllKeyed(kvs)
  {
    var all := [k, v] + kvs;
    assert forall i | 0 <= i < |kvs| :: kvs[i] == all[i + 2];
    assert forall i | 2 <= i < |all| :: all[i] == kvs[i - 2];
    assert StringKeyed(all[0]) <==> StringKeyed(k);
    assert StringKeyed(all[1]) <==> StringKeyed(v);
  }

  lemma TwoMore(buf: bytes, pos: nat, m: nat)
    requires m >= 2
    ensures match Parse(buf, pos)
            case Reject => ParseMany(buf, pos, m).Reject?
            case Accept(k, p) =>
              match Parse(buf, p)
              case Reject => ParseMany(buf, pos, m).Reject?
              case Accept(v, q) => ParseMany(buf, pos, m) == After([k, v], ParseMany(buf, q, m - 2))
  {
    AfterNothing(ParseMany(buf, pos, m));
    AfterOne(buf, [], pos, m);
    if Parse(buf, pos).Accept? {
      var Accept(k, p) := Parse(buf, pos);
      assert [] + [k] == [k];
      AfterOne(buf, [k], p, m - 1);
      if Parse(buf, p).Accept? {
        assert [k] + [Parse(buf, p).value] == [k, Parse(buf, p).value];
      }
    }
  }

  lemma TwoAccepted(buf: bytes, pos: nat, m: nat, k: Value, p: nat, v: Value, q: nat)
    requires m >= 2 && Parse(buf, pos) == Accept(k, p) && Parse(buf, p) == Accept(v, q)
    ensures ParseMany(buf, pos, m) == After([k, v], ParseMany(buf, q, m - 2))
  {
    TwoMore(buf, pos, m);
  }

  lemma OneRejected(buf: bytes, pos: nat, m: nat)
    requires m >= 2 && (Parse(buf, pos).Reject? || Parse(buf, Parse(buf, pos).next).Reject?)
    ensures ParseMany(buf, pos, m).Reject?
  {
    TwoMore(buf, pos, m);
  }

  lemma KeyedMore(buf: bytes, pos: nat, n: nat, k: Value, p: nat, v: Value, q: nat)
    requires n > 0 && Parse(buf, pos) == Accept(k, p) && Parse(buf, p) == Accept(v, q)
    ensures KeyedFields(buf, pos, n) ==
      if k.Str? && StringKeyed(v) then After([k, v], KeyedFields(buf, q, n - 1)) else Reject
  {
    StringsParse(buf, pos);
  }

  function Keyed(all: Parsed<seq<Value>>): Parsed<seq<Value>> {
    if all.Accept? && AllKeyed(all.value) then all else Reject
  }

  lemma KeyedFront(k: Value, v: Value, rest: Parsed<seq<Value>>, all: Parsed<seq<Value>>, fields: Parsed<seq<Value>>)
    requires all == After([k, v], rest)
    requires fields == if k.Str? && StringKeyed(v) then After([k, v], Keyed(rest)) else Reject
    ensures fields == Keyed(all)
  {
    if rest.Accept? { AllKeyedFront(k, v, rest.value); }
  }

  /** The field loop accepts exactly the field lists of the reference parser whose keys are strings throughout. */
  lemma {:induction false} KeyedFieldsAreParsed(buf: bytes, pos: nat, n: nat)
    ensures KeyedFields(buf, pos, n) == Keyed(ParseMany(buf, pos, 2 * n))
    decreases n
  {
    if n > 0 {
      var first := Parse(buf, pos);
      if first.Reject? || Parse(buf, first.next).Reject? {
        OneRejected(buf, pos, 2 * n);
        StringsParse(buf, pos);
      } else {
        KeyedFieldsAreParsed(buf, Parse(buf, first.next).next, n - 1);
        OneFieldMore(buf, pos, n);
      }
    }
  }

  lemma OneFieldMore(buf: bytes, pos: nat, n: nat)
    requires n > 0 && Parse(buf, pos).Accept? && Parse(buf, Parse(buf, pos).next).Accept?
    requires var q := Parse(buf, Parse(buf, pos).next).next;
      KeyedFields(buf, q, n - 1) == Keyed(ParseMany(buf, q, 2 * (n - 1)))
    ensures KeyedFields(buf, pos, n) == Keyed(ParseMany(buf, pos, 2 * n))
  {
    var Accept(k, p) := Parse(buf, pos);
    var Accept(v, q) := Parse(buf, p);
    var rest, all := ParseMany(buf, q, 2 * (n - 1)), ParseMany(buf, pos, 2 * n);
    assert all == After([k, v], rest) by { TwoAccepted(buf, pos, 2 * n, k, p, v, q); }
    KeyedMore(buf, pos, n, k, p, v, q);
    KeyedFront(k, v, rest, all, KeyedFields(buf, pos, n));
  }

  lemma MapsParse(buf: bytes, pos: nat)
    requires Parse(buf, pos).Accept? && Parse(buf, pos).value.MapOf?
    ensures MapHeaderAt(buf, pos).Accept?
    ensures ParseMany(buf, MapHeaderAt(buf, pos).next, 2 * MapHeaderAt(buf, pos).value) ==
      Accept(Parse(buf, pos).value.kvs, Parse(buf, pos).next)
  {
  }

  /** A map is its header and its fields. */
  lemma MapsAreKeyedFields(buf: bytes, pos: nat)
    ensures var h, p := MapHeaderAt(buf, pos), Parse(buf, pos);
      if h.Reject? then !(p.Accept? && p.value.MapOf?)
      else
        var f := KeyedFields(buf, h.next, h.value);
        && (f.Accept? <==> p.Accept? && p.value.MapOf? && StringKeyed(p.value))
        && (f.Accept? ==> p == Accept(MapOf(f.value), f.next))
  {
    var h := MapHeaderAt(buf, pos);
    if h.Accept? { KeyedFieldsAreParsed(buf, h.next, h.value); }
  }

  class MpReader {
    const buf: bytes
    var pos: nat

    constructor (buf: bytes)
      ensures this.buf == buf && pos == 0
    {
      this.buf := buf;
      pos := 0;
    }

    ghost predicate Valid() reads this { pos <= |buf| }

    method ReadByte() returns (ok: bool, b: byte)
      requires Valid()
      modifies this
      ensures Valid()
      ensures ok <==> old(pos) < |buf|
      ensures if ok then b == buf[old(pos)] && pos == old(pos) + 1 else pos == old(pos)
    {
      if pos >= |buf| {
        return false, 0;
      }
      ok, b := true, buf[pos];
      pos := pos + 1;
    }

    method PeekByte() returns (ok: bool, b: byte)
      requires Valid()
      ensures ok <==> pos < |buf|
      ensures ok ==> b == buf[pos]
    {
      if pos >= |buf| {
        return false, 0;
      }
      return true, buf[pos];
    }

    method ReadN(n: nat) returns (ok: bool, out: bytes)
      requires Valid()
      modifies this
      ensures Valid()
      ensures ok <==> old(pos) + n <= |buf|
      ensures if ok then out == buf[old(pos)..old(pos) + n] && pos == old(pos) + n else pos == old(pos)
    {
      if pos + n > |buf| {
        return false, [];
      }
      ok, out := true, buf[pos..pos + n];
      pos := pos + n;
    }

    /** The cursor only moves forward, and a successful read follows the reference reading `r`. */
    twostate predicate Follows<T(!new)>(ok: bool, value: T, r: Parsed<T>)
      reads this
    {
      && Valid() && old(pos) <= pos
      && (ok <==> r.Accept?)
      && (ok ==> r == Accept(value, pos))
    }

    /** `k` bytes, most significant first. */
    method ReadField(k: nat) returns (ok: bool, value: nat)
      requires Valid()
      modifies this
      ensures Follows(ok, value, FieldAt(buf, old(pos), k))
    {
      var p;
      ok, p := ReadN(k);
      if !ok {
        return false, 0;
      }
      value := 0;
      for i := 0 to k
        invariant value == BE(p[..i])
      {
        assert p[..i + 1][..i] == p[..i];
        value := value * 256 + p[i];
      }
      assert p[..k] == p;
    }

    method ReadString() returns (ok: bool, out: bytes)
      requires Valid()
      modifies this
      ensures Follows(ok, out, StrAt(buf, old(pos)))
    {
      out := [];
      var b;
      ok, b := ReadByte();
      if !ok {
        return;
      }
      var len := 0;
      if b / 32 == 5 {
        len := b % 32;
      } else if b == 0xd9 {
        ok, len := ReadField(1);
      } else if b == 0xda {
        ok, len := ReadField(2);
      } else if b == 0xdb {
        ok, len := ReadField(4);
      } else {
        return false, [];
      }
      if !ok {
        return;
      }
      ok, out := ReadN(len);
    }

    method ReadBool() returns (ok: bool, out: bool)
      requires Valid()
      modifies this
      ensures Valid() && old(pos) <= pos
      ensures ok <==> old(pos) < |buf| && buf[old(pos)] in {0xc2, 0xc3}
      ensures ok ==> pos == old(pos) + 1 && out == (buf[old(pos)] == 0xc3)
    {
      var b;
      ok, b := ReadByte();
      if !ok {
        return false, false;
      }
      if b == 0xc2 {
        return true, false;
      }
      if b == 0xc3 {
        return true, true;
      }
      return false, false;
    }

    method ReadUInt() returns (ok: bool, out: nat)
      requires Valid()
      modifies this
      ensures Follows(ok, out, UIntAt(buf, old(pos)))
    {
      var b;
      ok, b := ReadByte();
      if !ok {
        return false, 0;
      }
      if b <= 0x7f {
        return true, b;
      }
      if b == 0xcc {
        ok, out := ReadField(1);
      } else if b == 0xcd {
        ok, out := ReadField(2);
      } else if b == 0xce {
        ok, out := ReadField(4);
      } else if b == 0xcf {
        ok, out := ReadField(8);
      } else {
        return false, 0;
      }
    }

    method ReadMapHeader() returns (ok: bool, count: nat)
      requires Valid()
      modifies this
      ensures Follows(ok, count, MapHeaderAt(buf, old(pos)))
    {
      var b;
      ok, b := ReadByte();
      if !ok {
        return false, 0;
      }
      if b / 16 == 8 {
        return true, b % 16;
      }
      if b == 0xde {
        ok, count := ReadField(2);
      } else if b == 0xdf {
        ok, count := ReadField(4);
      } else {
        return false, 0;
      }
    }

    method ReadArrayHeader() returns (ok: bool, count: nat)
      requires Valid()
      modifies this
      ensures Follows(ok, count, ArrayHeaderAt(buf, old(pos)))
    {
      var b;
      ok, b := ReadByte();
      if !ok {
        return false, 0;
      }
      if b / 16 == 9 {
        return true, b % 16;
      }
      if b == 0xdc {
        ok, count := ReadField(2);
      } else if b == 0xdd {
        ok, count := ReadField(4);
      } else {
        return false, 0;
      }
    }

    /** The structural skipper accepts exactly what the reference parser accepts, and stops where it stops. */
    method Skip() returns (ok: bool)
      requires Valid()
      modifies this
      ensures Valid() && old(pos) <= pos
      ensures ok <==> Parse(buf, old(pos)).Accept?
      ensures ok ==> pos == Parse(buf, old(pos)).next
      decreases |buf| - pos, 1
    {
      var b;
      ok, b := PeekByte();
      if !ok {
        return false;
      }
      if b / 32 == 5 || b == 0xd9 || b == 0xda || b == 0xdb {
        var s;
        ok, s := ReadString();
      } else if b / 16 == 8 || b == 0xde || b == 0xdf {
        var n;
        ok, n := ReadMapHeader();
        if ok {
          ok := SkipMany(2 * n);
        }
      } else if b / 16 == 9 || b == 0xdc || b == 0xdd {
        var n;
        ok, n := ReadArrayHeader();
        if ok {
          ok := SkipMany(n);
        }
      } else if b <= 0x7f || b == 0xcc || b == 0xcd || b == 0xce || b == 0xcf {
        var u;
        ok, u := ReadUInt();
      } else if b == 0xc0 {
        var tmp;
        ok, tmp := ReadByte();
      } else if b == 0xc2 || b == 0xc3 {
        var v;
        ok, v := ReadBool();
      } else {
        return false;
      }
    }

    /** The element loops of the skipper: `n` values, a map's keys and values alternating. */
    method SkipMany(n: nat) returns (ok: bool)
      requires Valid()
      modifies this
      ensures Valid() && old(pos) <= pos
      ensures ok <==> ParseMany(buf, old(pos), n).Accept?
      ensures ok ==> pos == ParseMany(buf, old(pos), n).next
      decreases |buf| - pos, 2
    {
      ghost var vs: seq<Value> := [];
      AfterNothing(ParseMany(buf, pos, n));
      for i := 0 to n
        invariant Valid() && old(pos) <= pos
        invariant ParseMany(buf, old(pos), n) == After(vs, ParseMany(buf, pos, n - i))
      {
        AfterOne(buf, vs, pos, n - i);
        vs := vs + [if Parse(buf, pos).Accept? then Parse(buf, pos).value else Nil];
        ok := Skip();
        if !ok {
          return false;
        }
      }
      return true;
    }

    /** The translator accepts exactly the trees whose map keys are all strings,
        yields their direct rendering, and consumes exactly their bytes. */
    method ToJson() returns (ok: bool, json: bytes)
      requires Valid()
      modifies this
      ensures Valid() && old(pos) <= pos
      ensures ok <==> Parse(buf, old(pos)).Accept? && StringKeyed(Parse(buf, old(pos)).value)
      ensures ok ==> pos == Parse(buf, old(pos)).next && json == Render(Parse(buf, old(pos)).value)
      decreases |buf| - pos, 2
    {
      json := [];
      var b;
      ok, b := PeekByte();
      if !ok {
        return;
      }
      if b / 16 == 8 || b == 0xde || b == 0xdf {
        ok, json := ToJsonMap();
      } else if b / 16 == 9 || b == 0xdc || b == 0xdd {
        ok, json := ToJsonArray();
      } else if b / 32 == 5 || b == 0xd9 || b == 0xda || b == 0xdb {
        var s;
        ok, s := ReadString();
        var escaped := JsonEscape(s);
        json := [QUOTE] + escaped + [QUOTE];
      } else if b == 0xc0 {
        var tmp;
        ok, tmp := ReadByte();
        json := Ascii("null");
      } else if b == 0xc2 || b == 0xc3 {
        var v;
        ok, v := ReadBool();
        json := if v then Ascii("true") else Ascii("false");
      } else if b <= 0x7f || b == 0xcc || b == 0xcd || b == 0xce || b == 0xcf {
        var u;
        ok, u := ReadUInt();
        json := Decimal(u);
      } else {
        return false, [];
      }
    }

    method ToJsonMap() returns (ok: bool, json: bytes)
      requires Valid()
      modifies this
      ensures Valid() && old(pos) <= pos
      ensures var p := Parse(buf, old(pos));
        && (ok <==> p.Accept? && p.value.MapOf? && StringKeyed(p.value))
        && (ok ==> pos == p.next && json == Render(p.value))
      decreases |buf| - pos, 1
    {
      json := [];
      MapsAreKeyedFields(buf, pos);
      var n;
      ok, n := ReadMapHeader();
      if !ok {
        return;
      }
      ok, json := ToJsonFields(n);
      json := Ascii("{") + json + Ascii("}");
    }

    /** A key, a colon and the value behind it. */
    method ToJsonField() returns (ok: bool, json: bytes)
      requires Valid()
      modifies this
      ensures Valid() && old(pos) <= pos
      ensures var f := KeyedField(buf, old(pos));
        && (ok <==> f.Accept?)
        && (ok ==> pos == f.next && json == RenderField(f.value))
      decreases |buf| - pos, 2
    {
      var key, item, escaped;
      ok, key := ReadString();
      if !ok {
        return false, [];
      }
      ok, item := ToJson();
      if !ok {
        return false, [];
      }
      escaped := JsonEscape(key);
      json := ([QUOTE] + escaped + [QUOTE]) + [COLON] + item;
    }

    /** The field loop: `n` keys and values. */
    method ToJsonFields(n: nat) returns (ok: bool, json: bytes)
      requires Valid()
      modifies this
      ensures Valid() && old(pos) <= pos
      ensures var p := KeyedFields(buf, old(pos), n);
        && (ok <==> p.Accept?)
        && (ok ==> pos == p.next && json == RenderFields(p.value))
      decreases |buf| - pos, 3
    {
      ghost var kvs: seq<Value> := [];
      ghost var all := KeyedFields(buf, pos, n);
      NoFieldYet(buf, pos, n);
      json := [];
      for i := 0 to n
        invariant Valid() && old(pos) <= pos
        invariant |kvs| == 2 * i && FieldsRead(all, kvs, buf, pos, n - i, json)
      {
        var comma := if i > 0 then [COMMA] else [];
        assert comma == if kvs != [] then [COMMA] else [];
        OneMoreField(all, kvs, buf, pos, n - i, json);
        ghost var kv := KeyedField(buf, pos);
        var field;
        ok, field := ToJsonField();
        if !ok {
          return false, [];
        }
        json := json + comma + field;
        kvs := kvs + kv.value;
        assert FieldsRead(all, kvs, buf, pos, n - i - 1, json);
      }
      AllFieldsRead(all, kvs, buf, pos, json);
      return true, json;
    }

    method ToJsonArray() returns (ok: bool, json: bytes)
      requires Valid()
      modifies this
      ensures Valid() && old(pos) <= pos
      ensures var p := Parse(buf, old(pos));
        && (ok <==> p.Accept? && p.value.ArrayOf? && StringKeyed(p.value))
        && (ok ==> pos == p.next && json == Render(p.value))
      decreases |buf| - pos, 1
    {
      json := [];
      var n;
      ok, n := ReadArrayHeader();
      if !ok {
        return;
      }
      ok, json := ToJsonItems(n);
      json := Ascii("[") + json + Ascii("]");
    }

    /** The element loop: `n` values. */
    method ToJsonItems(n: nat) returns (ok: bool, json: bytes)
      requires Valid()
      modifies this
      ensures Valid() && old(pos) <= pos
      ensures var p := ParseMany(buf, old(pos), n);
        && (ok <==> p.Accept? && AllItemsKeyed(p.value))
        && (ok ==> pos == p.next && json == RenderItems(p.value))
      decreases |buf| - pos, 3
    {
      ghost var items: seq<Value> := [];
      ghost var all := ParseMany(buf, pos, n);
      AfterNothing(all);
      json := [];
      for i := 0 to n
        invariant Valid() && old(pos) <= pos
        invariant |items| == i && ItemsRead(all, items, buf, pos, n - i, json)
      {
        OneMoreItem(all, items, buf, pos, n - i, json);
        ghost var value := Parse(buf, pos);
        var item;
        ok, item := ToJson();
        if !ok {
          return false, [];
        }
        json := json + (if i > 0 then [COMMA] else []) + item;
        items := items + [value.value];
      }
      AllItemsRead(all, items, buf, pos, json);
      return true, json;
    }
  }
}
