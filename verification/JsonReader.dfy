/** What the plugin's JSON text means: a reader for the JSON of RFC 8259 whose numbers are unsigned integers, its bytes
    taken as characters, and what it makes of the translator's output. */
module JsonReader {
  import opened Wire
  import opened MsgPack
  import opened JsonText
  import opened Options
  import opened MsgPackReader

  datatype Read<+T> = Fail | Got(value: T, rest: bytes)

  const OPEN_BRACKET: byte := 0x5b
  const CLOSE_BRACKET: byte := 0x5d
  const OPEN_BRACE: byte := 0x7b
  const CLOSE_BRACE: byte := 0x7d

  // ----- Strings, section 7 -----

  predicate IsHex(c: byte) { 0x30 <= c <= 0x39 || 0x41 <= c <= 0x46 || 0x61 <= c <= 0x66 }

  predicate IsSimpleEscape(c: byte) {
    c == QUOTE || c == BACKSLASH || c == 0x2f || c == 0x62 || c == 0x66 || c == 0x6e || c == 0x72 || c == 0x74
  }

  predicate IsHexEscape(t: bytes) { |t| >= 6 && t[1] == 0x75 && IsHex(t[2]) && IsHex(t[3]) && IsHex(t[4]) && IsHex(t[5]) }

  /** Characters up to a closing quote that ends the text. */
  predicate CharsThenQuote(t: bytes) {
    if t == [] then false
    else if t[0] == QUOTE then |t| == 1
    else if t[0] != BACKSLASH then t[0] >= 0x20 && CharsThenQuote(t[1..])
    else if |t| >= 2 && IsSimpleEscape(t[1]) then CharsThenQuote(t[2..])
    else IsHexEscape(t) && CharsThenQuote(t[6..])
  }

  predicate IsJsonString(t: bytes) { t != [] && t[0] == QUOTE && CharsThenQuote(t[1..]) }

  predicate Escaped(c: byte) { c >= 0x20 || c == 0x09 || c == 0x0a || c == 0x0d }

  /** No control byte but tab, newline and carriage return. */
  predicate CleanText(s: bytes) { forall i | 0 <= i < |s| :: Escaped(s[i]) }

  lemma CleanCons(s: bytes)
    requires s != []
    ensures CleanText(s) <==> Escaped(s[0]) && CleanText(s[1..])
  {
    assert s == [s[0]] + s[1..];
  }

  lemma EscapeFirst(s: bytes, rest: bytes)
    requires s != []
    ensures Escape(s) + rest == EscapeByte(s[0]) + (Escape(s[1..]) + rest)
  {
  }

  lemma OneCharThen(c: byte, t: bytes)
    ensures CharsThenQuote(EscapeByte(c) + t) <==> Escaped(c) && CharsThenQuote(t)
  {
    var text := EscapeByte(c) + t;
    if |EscapeByte(c)| == 1 { assert text[1..] == t; } else { assert text[2..] == t; }
  }

  lemma {:induction false} EscapeIsChars(s: bytes)
    ensures CharsThenQuote(Escape(s) + [QUOTE]) <==> CleanText(s)
  {
    if s == [] {
      assert Escape(s) + [QUOTE] == [QUOTE];
    } else {
      EscapeFirst(s, [QUOTE]);
      OneCharThen(s[0], Escape(s[1..]) + [QUOTE]);
      EscapeIsChars(s[1..]);
      CleanCons(s);
    }
  }

  /** A literal is a JSON string if and only if the escape leaves no control byte bare. */
  lemma LiteralIsJsonString(s: bytes)
    ensures IsJsonString(Literal(s)) <==> CleanText(s)
  {
    EscapeIsChars(s);
    assert Literal(s)[1..] == Escape(s) + [QUOTE];
  }

  /** It leaves the byte 1 bare, for one. */
  lemma BareControlByte()
    ensures Literal([0x01]) == [QUOTE, 0x01, QUOTE] && !IsJsonString(Literal([0x01]))
  {
    LiteralIsJsonString([0x01]);
    assert !Escaped([0x01][0]);
    assert [0x01][1..] == [];
  }

  function Unhex(c: byte): nat
    requires IsHex(c)
  {
    if c <= 0x39 then c - 0x30 else if c <= 0x46 then c - 0x37 else c - 0x57
  }

  /** The rest of a string behind its opening quote. A character above 255 is no byte. */
  function ReadString(t: bytes): (r: Read<bytes>)
    ensures r.Got? ==> |r.rest| < |t|
  {
    if t == [] then Fail
    else if t[0] == QUOTE then Got([], t[1..])
    else if t[0] != BACKSLASH then (if t[0] < 0x20 then Fail else Before(t[0], ReadString(t[1..])))
    else if |t| >= 2 && IsSimpleEscape(t[1]) then Before(UnescapeChar(t[1]), ReadString(t[2..]))
    else if IsHexEscape(t) && t[2] == t[3] == 0x30
    then Before(16 * Unhex(t[4]) + Unhex(t[5]), ReadString(t[6..]))
    else Fail
  }

  function UnescapeChar(c: byte): byte {
    if c == 0x62 then 0x08 else if c == 0x66 then 0x0c else if c == 0x6e then 0x0a
    else if c == 0x72 then 0x0d else if c == 0x74 then 0x09 else c
  }

  function Before(c: byte, r: Read<bytes>): Read<bytes> {
    if r.Fail? then Fail else Got([c] + r.value, r.rest)
  }

  lemma ReadsOneChar(c: byte, t: bytes)
    ensures ReadString(EscapeByte(c) + t) == if Escaped(c) then Before(c, ReadString(t)) else Fail
  {
    var text := EscapeByte(c) + t;
    if |EscapeByte(c)| == 1 { assert text[1..] == t; } else { assert text[2..] == t; }
  }

  lemma {:induction false} ReadsString(s: bytes, rest: bytes)
    ensures ReadString(Escape(s) + ([QUOTE] + rest)) == if CleanText(s) then Got(s, rest) else Fail
  {
    if s == [] {
      assert Escape(s) + ([QUOTE] + rest) == [QUOTE] + rest;
      assert ([QUOTE] + rest)[1..] == rest;
    } else {
      EscapeFirst(s, [QUOTE] + rest);
      ReadsOneChar(s[0], Escape(s[1..]) + ([QUOTE] + rest));
      ReadsString(s[1..], rest);
      CleanCons(s);
      assert s == [s[0]] + s[1..];
    }
  }

  // ----- Numbers -----

  predicate IsDigit(c: byte) { 0x30 <= c <= 0x39 }

  /** The text goes on with something that would belong to a number before it. */
  predicate ContinuesNumber(t: bytes) { t != [] && (IsDigit(t[0]) || t[0] == 0x2e || t[0] == 0x65 || t[0] == 0x45) }

  function ReadDigits(t: bytes, n: nat): (r: (nat, bytes))
    ensures |r.1| <= |t|
  {
    if t != [] && IsDigit(t[0]) then ReadDigits(t[1..], 10 * n + (t[0] - 0x30)) else (n, t)
  }

  /** An unsigned integer without leading zeros. */
  function ReadNumber(t: bytes): (r: Read<nat>)
    requires t != [] && IsDigit(t[0])
    ensures r.Got? ==> |r.rest| < |t|
  {
    var (n, rest) := if t[0] == 0x30 then (0, t[1..]) else ReadDigits(t[1..], t[0] - 0x30);
    if ContinuesNumber(rest) then Fail else Got(n, rest)
  }

  lemma {:induction false} DecimalStarts(n: nat)
    ensures Decimal(n) != [] && IsDigit(Decimal(n)[0]) && (Decimal(n)[0] == 0x30 <==> n == 0)
  {
    if n >= 10 {
      DecimalStarts(n / 10);
    }
  }

  lemma {:induction false} ReadsDigits(n: nat, t: bytes)
    requires n > 0
    ensures var d := Decimal(n); d != [] && IsDigit(d[0]) && ReadDigits(d[1..] + t, d[0] - 0x30) == ReadDigits(t, n)
  {
    if n < 10 {
      assert Decimal(n)[1..] + t == t;
    } else {
      var last: byte := 48 + n % 10;
      var d, high, low := Decimal(n), Decimal(n / 10), [last] + t;
      DecimalStarts(n / 10);
      assert d[1..] + t == high[1..] + low;
      ReadsDigits(n / 10, low);
      assert low[1..] == t;
    }
  }

  lemma ReadsNumeral(d: bytes, n: nat, rest: bytes)
    requires d != [] && IsDigit(d[0]) && !ContinuesNumber(rest)
    requires if n == 0 then d == [0x30] else d[0] != 0x30 && ReadDigits(d[1..] + rest, d[0] - 0x30) == (n, rest)
    ensures var t := d + rest; t != [] && IsDigit(t[0]) && ReadNumber(t) == Got(n, rest)
  {
    var t := d + rest;
    assert t[0] == d[0] && t[1..] == d[1..] + rest;
    assert [] + rest == rest;
  }

  lemma ReadsNumber(n: nat, rest: bytes)
    requires !ContinuesNumber(rest)
    ensures var t := Decimal(n) + rest; t != [] && IsDigit(t[0]) && ReadNumber(t) == Got(n, rest)
  {
    DecimalStarts(n);
    if n > 0 {
      ReadsDigits(n, rest);
      assert ReadDigits(rest, n) == (n, rest);
    }
    ReadsNumeral(Decimal(n), n, rest);
  }

  // ----- Values -----

  predicate IsWhite(c: byte) { c == 0x20 || c == 0x09 || c == 0x0a || c == 0x0d }

  function SkipWhite(t: bytes): (r: bytes)
    ensures |r| <= |t|
  {
    if t != [] && IsWhite(t[0]) then SkipWhite(t[1..]) else t
  }

  predicate Starts(t: bytes, word: bytes) { |word| <= |t| && t[..|word|] == word }

  function Then(vs: seq<Value>, r: Read<seq<Value>>): Read<seq<Value>> {
    if r.Fail? then Fail else Got(vs + r.value, r.rest)
  }

  function ReadValue(text: bytes): (r: Read<Value>)
    ensures r.Got? ==> |r.rest| < |text|
    decreases |text|, 0
  {
    var t := SkipWhite(text);
    if t == [] then Fail
    else if t[0] == QUOTE then
      var r := ReadString(t[1..]);
      if r.Fail? then Fail else Got(Str(r.value), r.rest)
    else if IsDigit(t[0]) then
      var r := ReadNumber(t);
      if r.Fail? then Fail else Got(UInt(r.value), r.rest)
    else if t[0] == OPEN_BRACKET then
      var u := SkipWhite(t[1..]);
      if u != [] && u[0] == CLOSE_BRACKET then Got(ArrayOf([]), u[1..])
      else
        var r := ReadItems(t[1..]);
        if r.Fail? then Fail else Got(ArrayOf(r.value), r.rest)
    else if t[0] == OPEN_BRACE then
      var u := SkipWhite(t[1..]);
      if u != [] && u[0] == CLOSE_BRACE then Got(MapOf([]), u[1..])
      else
        var r := ReadFields(t[1..]);
        if r.Fail? then Fail else Got(MapOf(r.value), r.rest)
    else if Starts(t, Ascii("null")) then Got(Nil, t[4..])
    else if Starts(t, Ascii("true")) then Got(Bool(true), t[4..])
    else if Starts(t, Ascii("false")) then Got(Bool(false), t[5..])
    else Fail
  }

  /** One or more values and the closing bracket. */
  function ReadItems(text: bytes): (r: Read<seq<Value>>)
    ensures r.Got? ==> |r.rest| < |text|
    decreases |text|, 1
  {
    var r := ReadValue(text);
    if r.Fail? then Fail
    else
      var t := SkipWhite(r.rest);
      if t == [] then Fail
      else if t[0] == CLOSE_BRACKET then Got([r.value], t[1..])
      else if t[0] != COMMA then Fail
      else
        var more := ReadItems(t[1..]);
        Then([r.value], more)
  }

  /** A name, a colon and a value. */
  function ReadField(text: bytes): (r: Read<seq<Value>>)
    ensures r.Got? ==> |r.rest| < |text|
    decreases |text|, 1
  {
    var t := SkipWhite(text);
    if t == [] || t[0] != QUOTE then Fail
    else
      var name := ReadString(t[1..]);
      if name.Fail? then Fail
      else
        var u := SkipWhite(name.rest);
        if u == [] || u[0] != COLON then Fail
        else
          var r := ReadValue(u[1..]);
          if r.Fail? then Fail else Got([Str(name.value), r.value], r.rest)
  }

  /** One or more fields and the closing brace. */
  function ReadFields(text: bytes): (r: Read<seq<Value>>)
    ensures r.Got? ==> |r.rest| < |text|
    decreases |text|, 2
  {
    var r := ReadField(text);
    if r.Fail? then Fail
    else
      var t := SkipWhite(r.rest);
      if t == [] then Fail
      else if t[0] == CLOSE_BRACE then Got(r.value, t[1..])
      else if t[0] != COMMA then Fail
      else
        var more := ReadFields(t[1..]);
        Then(r.value, more)
  }

  // ----- The translator's output -----

  /** No string anywhere in the tree holds a control byte that the escape leaves bare. */
  predicate Clean(v: Value) {
    match v
    case Str(s) => CleanText(s)
    case ArrayOf(items) => forall i | 0 <= i < |items| :: Clean(items[i])
    case MapOf(kvs) => forall i | 0 <= i < |kvs| :: Clean(kvs[i])
    case _ => true
  }

  predicate CleanFrom(vs: seq<Value>, i: nat) { forall k | i <= k < |vs| :: Clean(vs[k]) }

  /** Every key has a value, at every depth. */
  predicate Paired(v: Value) {
    match v
    case ArrayOf(items) => forall i | 0 <= i < |items| :: Paired(items[i])
    case MapOf(kvs) => |kvs| % 2 == 0 && forall i | 0 <= i < |kvs| :: Paired(kvs[i])
    case _ => true
  }

  /** Trees that the translator renders. */
  predicate Renderable(v: Value) { StringKeyed(v) && Paired(v) }

  /** The text from item `i` to behind the closing bracket. */
  function ItemsTail(items: seq<Value>, i: nat, rest: bytes): bytes
    requires i <= |items|
    decreases |items| - i
  {
    if i == |items| then [CLOSE_BRACKET] + rest
    else Comma(i) + (Render(items[i]) + ItemsTail(items, i + 1, rest))
  }

  function Comma(i: nat): bytes { if i > 0 then [COMMA] else [] }

  lemma {:induction false} ItemsSplit(items: seq<Value>, i: nat, rest: bytes)
    requires i <= |items|
    ensures RenderItems(items) + ([CLOSE_BRACKET] + rest) == RenderItems(items[..i]) + ItemsTail(items, i, rest)
    decreases |items| - i
  {
    if i == |items| {
      assert items[..i] == items;
    } else {
      ItemsSplit(items, i + 1, rest);
      RenderItemsSnoc(items[..i], items[i]);
      assert items[..i] + [items[i]] == items[..i + 1];
      Regroup(RenderItems(items[..i]), Comma(i), Render(items[i]), ItemsTail(items, i + 1, rest));
    }
  }

  lemma Brackets()
    ensures Ascii("[") == [OPEN_BRACKET] && Ascii("]") == [CLOSE_BRACKET]
    ensures Ascii("{") == [OPEN_BRACE] && Ascii("}") == [CLOSE_BRACE]
  {
  }

  lemma ArrayText(items: seq<Value>, rest: bytes)
    ensures Render(ArrayOf(items)) + rest == [OPEN_BRACKET] + ItemsTail(items, 0, rest)
  {
    ItemsSplit(items, 0, rest);
    assert items[..0] == [];
    assert [] + ItemsTail(items, 0, rest) == ItemsTail(items, 0, rest);
    Brackets();
    Regroup([OPEN_BRACKET], RenderItems(items), [CLOSE_BRACKET], rest);
  }

  function FieldText(name: bytes, x: Value, rest: bytes): bytes {
    [QUOTE] + (Escape(name) + ([QUOTE] + ([COLON] + (Render(x) + rest))))
  }

  lemma Spliced(e: bytes, r: bytes, rest: bytes)
    ensures [QUOTE] + e + [QUOTE] + [COLON] + r + rest == [QUOTE] + (e + ([QUOTE] + ([COLON] + (r + rest))))
  {
  }

  lemma FieldTextIs(name: bytes, x: Value, rest: bytes)
    ensures Literal(name) + [COLON] + Render(x) + rest == FieldText(name, x, rest)
  {
    Spliced(Escape(name), Render(x), rest);
  }

  /** A whole number of fields with string names, from `i` on. */
  predicate Fields(kvs: seq<Value>, i: nat)
    decreases |kvs| - i
  {
    i == |kvs| || (i + 1 < |kvs| && kvs[i].Str? && Fields(kvs, i + 2))
  }

  lemma {:induction false} KeyedIsFields(kvs: seq<Value>, i: nat)
    requires StringKeyed(MapOf(kvs)) && i <= |kvs| && i % 2 == |kvs| % 2 == 0
    ensures Fields(kvs, i)
    decreases |kvs| - i
  {
    if i < |kvs| {
      KeyedIsFields(kvs, i + 2);
    }
  }

  /** The text from field `i` to behind the closing brace. */
  function FieldsTail(kvs: seq<Value>, i: nat, rest: bytes): bytes
    requires Fields(kvs, i)
    decreases |kvs| - i
  {
    if i == |kvs| then [CLOSE_BRACE] + rest
    else Comma(i) + FieldText(kvs[i].s, kvs[i + 1], FieldsTail(kvs, i + 2, rest))
  }

  lemma OneMoreField(kvs: seq<Value>, name: bytes, x: Value, rest: bytes)
    ensures RenderFields(kvs + [Str(name), x]) + rest ==
      RenderFields(kvs) + ((if kvs != [] then [COMMA] else []) + FieldText(name, x, rest))
  {
    RenderFieldJoins(kvs, name, x);
    FieldTextIs(name, x, rest);
    var c, f := if kvs != [] then [COMMA] else [], Literal(name) + [COLON] + Render(x);
    Regroup(RenderFields(kvs), c, f, rest);
  }

  lemma TwoMore(kvs: seq<Value>, i: nat)
    requires i + 1 < |kvs|
    ensures kvs[..i] + [kvs[i], kvs[i + 1]] == kvs[..i + 2]
  {
  }

  lemma {:induction false} FieldsSplit(kvs: seq<Value>, i: nat, rest: bytes)
    requires Fields(kvs, i)
    ensures RenderFields(kvs) + ([CLOSE_BRACE] + rest) == RenderFields(kvs[..i]) + FieldsTail(kvs, i, rest)
    decreases |kvs| - i
  {
    if i == |kvs| {
      assert kvs[..i] == kvs;
    } else {
      FieldsSplit(kvs, i + 2, rest);
      OneMoreField(kvs[..i], kvs[i].s, kvs[i + 1], FieldsTail(kvs, i + 2, rest));
      TwoMore(kvs, i);
    }
  }

  lemma MapText(kvs: seq<Value>, rest: bytes)
    requires Fields(kvs, 0)
    ensures Render(MapOf(kvs)) + rest == [OPEN_BRACE] + FieldsTail(kvs, 0, rest)
  {
    FieldsSplit(kvs, 0, rest);
    assert kvs[..0] == [];
    assert [] + FieldsTail(kvs, 0, rest) == FieldsTail(kvs, 0, rest);
    Brackets();
    Regroup([OPEN_BRACE], RenderFields(kvs), [CLOSE_BRACE], rest);
  }

  /** No rendered value starts with white space or a closing bracket. */
  lemma RenderStarts(v: Value)
    ensures Render(v) != [] && !IsWhite(Render(v)[0]) && Render(v)[0] != CLOSE_BRACKET
  {
    if v.UInt? {
      DecimalStarts(v.n);
    }
  }

  lemma ReadsWord(v: Value, rest: bytes)
    requires v.Nil? || v.Bool?
    ensures ReadValue(Render(v) + rest) == Got(v, rest)
  {
    var word := Render(v);
    var t := word + rest;
    assert t[..|word|] == word && t[|word|..] == rest;
    assert Starts(t, word);
    if v == Bool(true) {
      assert t[0] == 't' as int;
      assert !Starts(t, Ascii("null")) by { assert t[..4][0] != Ascii("null")[0]; }
    }
    if v == Bool(false) {
      assert t[0] == 'f' as int;
      assert !Starts(t, Ascii("null")) by { assert t[..4][0] != Ascii("null")[0]; }
      assert !Starts(t, Ascii("true")) by { assert t[..4][0] != Ascii("true")[0]; }
    }
  }

  lemma ReadsStr(s: bytes, rest: bytes)
    ensures ReadValue(Render(Str(s)) + rest) == if CleanText(s) then Got(Str(s), rest) else Fail
  {
    var t := Render(Str(s)) + rest;
    assert t[1..] == Escape(s) + ([QUOTE] + rest);
    ReadsString(s, rest);
  }

  lemma ReadsUInt(n: nat, rest: bytes)
    requires !ContinuesNumber(rest)
    ensures ReadValue(Render(UInt(n)) + rest) == Got(UInt(n), rest)
  {
    ReadsNumber(n, rest);
  }

  /** The main law: the text of a tree, whatever follows it, reads back as the tree and stops where the text ends, unless
      some string in it holds a bare control byte; then it is no JSON. A number needs an end of its own. */
  lemma {:induction false} ReadsValue(v: Value, rest: bytes)
    requires Renderable(v) && (v.UInt? ==> !ContinuesNumber(rest))
    ensures ReadValue(Render(v) + rest) == if Clean(v) then Got(v, rest) else Fail
    decreases v, 0
  {
    match v
    case Str(s) => ReadsStr(s, rest);
    case UInt(n) => ReadsUInt(n, rest);
    case ArrayOf(items) =>
      ArrayText(items, rest);
      if items != [] {
        ReadsItems(items, 0, rest);
      }
      ReadsArray(items, rest);
    case MapOf(kvs) =>
      KeyedIsFields(kvs, 0);
      MapText(kvs, rest);
      if kvs != [] {
        ReadsFields(kvs, 0, rest);
      }
      ReadsMap(kvs, rest);
    case _ => ReadsWord(v, rest);
  }

  /** The items from `i` on, without the comma before them. */
  function ItemsFrom(items: seq<Value>, i: nat, rest: bytes): bytes
    requires i < |items|
  {
    Render(items[i]) + ItemsTail(items, i + 1, rest)
  }

  lemma ReadsArray(items: seq<Value>, rest: bytes)
    requires items != [] ==>
      ReadItems(ItemsFrom(items, 0, rest)) == if CleanFrom(items, 0) then Got(items, rest) else Fail
    ensures ReadValue([OPEN_BRACKET] + ItemsTail(items, 0, rest)) ==
      if Clean(ArrayOf(items)) then Got(ArrayOf(items), rest) else Fail
  {
    var t := [OPEN_BRACKET] + ItemsTail(items, 0, rest);
    assert t[1..] == ItemsTail(items, 0, rest);
    if items == [] {
      assert ([CLOSE_BRACKET] + rest)[1..] == rest;
    } else {
      RenderStarts(items[0]);
      assert ItemsTail(items, 0, rest) == ItemsFrom(items, 0, rest);
      assert Clean(ArrayOf(items)) <==> CleanFrom(items, 0);
    }
  }

  lemma LastItem(text: bytes, v: Value, rest: bytes)
    requires ReadValue(text) == Got(v, [CLOSE_BRACKET] + rest)
    ensures ReadItems(text) == Got([v], rest)
  {
    assert ([CLOSE_BRACKET] + rest)[1..] == rest;
  }

  lemma NextItem(text: bytes, v: Value, more: bytes)
    requires ReadValue(text) == Got(v, [COMMA] + more)
    ensures ReadItems(text) == Then([v], ReadItems(more))
  {
    assert ([COMMA] + more)[1..] == more;
  }

  lemma CleanItem(items: seq<Value>, i: nat)
    requires i < |items|
    ensures items[i..] == if i + 1 < |items| then [items[i]] + items[i + 1..] else [items[i]]
    ensures CleanFrom(items, i) <==> Clean(items[i]) && CleanFrom(items, i + 1)
  {
  }

  lemma {:induction false} ReadsItems(items: seq<Value>, i: nat, rest: bytes)
    requires i < |items| && forall k | 0 <= k < |items| :: Renderable(items[k])
    ensures ReadItems(ItemsFrom(items, i, rest)) == if CleanFrom(items, i) then Got(items[i..], rest) else Fail
    decreases items, |items| - i
  {
    var text, v, tail := ItemsFrom(items, i, rest), items[i], ItemsTail(items, i + 1, rest);
    ReadsValue(v, tail);
    CleanItem(items, i);
    if !Clean(v) {
      assert ReadValue(text).Fail?;
    } else if i + 1 == |items| {
      LastItem(text, v, rest);
    } else {
      ReadsItems(items, i + 1, rest);
      NextItem(text, v, ItemsFrom(items, i + 1, rest));
    }
  }

  function FieldsFrom(kvs: seq<Value>, i: nat, rest: bytes): bytes
    requires Fields(kvs, i) && i < |kvs|
  {
    FieldText(kvs[i].s, kvs[i + 1], FieldsTail(kvs, i + 2, rest))
  }

  lemma ReadsMap(kvs: seq<Value>, rest: bytes)
    requires Fields(kvs, 0)
    requires kvs != [] ==>
      ReadFields(FieldsFrom(kvs, 0, rest)) == if CleanFrom(kvs, 0) then Got(kvs, rest) else Fail
    ensures ReadValue([OPEN_BRACE] + FieldsTail(kvs, 0, rest)) ==
      if Clean(MapOf(kvs)) then Got(MapOf(kvs), rest) else Fail
  {
    var t := [OPEN_BRACE] + FieldsTail(kvs, 0, rest);
    assert t[1..] == FieldsTail(kvs, 0, rest);
    if kvs == [] {
      assert ([CLOSE_BRACE] + rest)[1..] == rest;
    } else {
      assert FieldsTail(kvs, 0, rest) == FieldsFrom(kvs, 0, rest);
      assert Clean(MapOf(kvs)) <==> CleanFrom(kvs, 0);
    }
  }

  lemma ReadsOneField(name: bytes, x: Value, rest: bytes)
    requires ReadValue(Render(x) + rest) == if Clean(x) then Got(x, rest) else Fail
    ensures ReadField(FieldText(name, x, rest)) ==
      if CleanText(name) && Clean(x) then Got([Str(name), x], rest) else Fail
  {
    var t, more := FieldText(name, x, rest), [COLON] + (Render(x) + rest);
    assert t[1..] == Escape(name) + ([QUOTE] + more);
    ReadsString(name, more);
    assert more[1..] == Render(x) + rest;
  }

  lemma LastField(text: bytes, kv: seq<Value>, rest: bytes)
    requires ReadField(text) == Got(kv, [CLOSE_BRACE] + rest)
    ensures ReadFields(text) == Got(kv, rest)
  {
    assert ([CLOSE_BRACE] + rest)[1..] == rest;
  }

  lemma NextField(text: bytes, kv: seq<Value>, more: bytes)
    requires ReadField(text) == Got(kv, [COMMA] + more)
    ensures ReadFields(text) == Then(kv, ReadFields(more))
  {
    assert ([COMMA] + more)[1..] == more;
  }

  lemma CleanField(kvs: seq<Value>, i: nat)
    requires i + 1 < |kvs| && kvs[i].Str?
    ensures var kv := [Str(kvs[i].s), kvs[i + 1]]; kvs[i..] == if i + 2 < |kvs| then kv + kvs[i + 2..] else kv
    ensures CleanFrom(kvs, i) <==> CleanText(kvs[i].s) && Clean(kvs[i + 1]) && CleanFrom(kvs, i + 2)
  {
    assert CleanText(kvs[i].s) <==> Clean(kvs[i]);
  }

  lemma {:induction false} ReadsFields(kvs: seq<Value>, i: nat, rest: bytes)
    requires Fields(kvs, i) && i < |kvs| && forall k | 0 <= k < |kvs| :: Renderable(kvs[k])
    ensures ReadFields(FieldsFrom(kvs, i, rest)) == if CleanFrom(kvs, i) then Got(kvs[i..], rest) else Fail
    decreases kvs, |kvs| - i
  {
    var text, name, x, tail := FieldsFrom(kvs, i, rest), kvs[i].s, kvs[i + 1], FieldsTail(kvs, i + 2, rest);
    ReadsValue(x, tail);
    ReadsOneField(name, x, tail);
    CleanField(kvs, i);
    if !CleanText(name) || !Clean(x) {
      assert ReadField(text).Fail?;
    } else if i + 2 == |kvs| {
      LastField(text, [Str(name), x], rest);
    } else {
      ReadsFields(kvs, i + 2, rest);
      NextField(text, [Str(name), x], FieldsFrom(kvs, i + 2, rest));
    }
  }

  lemma {:induction false} ParsedIsPaired(buf: bytes, pos: nat)
    requires Parse(buf, pos).Accept?
    ensures Paired(Parse(buf, pos).value)
    decreases |buf| - pos, 0
  {
    var p := HeadAt(buf, pos).next;
    match HeadAt(buf, pos).value
    case Scalar(_) =>
    case Items(n) => ParsedArePaired(buf, p, n);
    case Pairs(n) => ParsedArePaired(buf, p, 2 * n);
  }

  lemma {:induction false} ParsedArePaired(buf: bytes, pos: nat, n: nat)
    requires ParseMany(buf, pos, n).Accept?
    ensures forall i | 0 <= i < n :: Paired(ParseMany(buf, pos, n).value[i])
    decreases |buf| - pos, 1, n
  {
    if n > 0 {
      ParsedIsPaired(buf, pos);
      ParsedArePaired(buf, Parse(buf, pos).next, n - 1);
    }
  }

  /** The text that the translator returns for bytes it accepts is one JSON value, the tree those bytes hold, if and only
      if no string in the tree holds a bare control byte. */
  lemma TranslationIsJson(buf: bytes, pos: nat)
    requires Parse(buf, pos).Accept? && StringKeyed(Parse(buf, pos).value)
    ensures var v := Parse(buf, pos).value; ReadValue(Render(v)) == if Clean(v) then Got(v, []) else Fail
  {
    var v := Parse(buf, pos).value;
    ParsedIsPaired(buf, pos);
    ReadsValue(v, []);
    assert Render(v) + [] == Render(v);
  }

  /** From a tree to its bytes, through the translator, and back from its text. Whatever follows the bytes, the translator
      consumes exactly them. */
  method TranslateEncoding(v: Value, rest: bytes) returns (ok: bool, used: nat, json: bytes)
    requires Writable(v) && StringKeyed(v)
    ensures ok && used == |Enc(v)| && json == Render(v)
    ensures ReadValue(json) == if Clean(v) then Got(v, []) else Fail
  {
    ParseEncThenAnything(v, rest);
    TranslationIsJson(Enc(v) + rest, 0);
    var reader := new MpReader(Enc(v) + rest);
    ok, json := reader.ToJson();
    used := reader.pos;
  }

  // ----- The scanner on anyone's JSON -----

  /** The escapes of a string's rest that name their character by its number. */
  function HexEscapes(t: bytes): nat {
    if t == [] || t[0] == QUOTE then 0
    else if t[0] != BACKSLASH then HexEscapes(t[1..])
    else if |t| >= 2 && IsSimpleEscape(t[1]) then HexEscapes(t[2..])
    else if IsHexEscape(t) then 1 + HexEscapes(t[6..])
    else 0
  }

  lemma HexIsScanned(t: bytes)
    requires IsHexEscape(t) && t[0] == BACKSLASH
    ensures var tail := Scan(t[6..]);
      Scan(t) == if tail.None? then None else Some((t[1..6] + tail.value.0, 6 + tail.value.1))
  {
    var tail := Scan(t[6..]);
    forall c | c in t[2..6] ensures c != QUOTE && c != BACKSLASH {
      var k :| 0 <= k < 4 && t[2..6][k] == c;
      assert IsHex(t[2 + k]);
    }
    assert t[2] in t[2..6] && t[3] in t[2..6] && t[4] in t[2..6] && t[5] in t[2..6];
    assert t[5..][1..] == t[6..] && t[4..][1..] == t[5..] && t[3..][1..] == t[4..] && t[2..][1..] == t[3..];
    assert Scan(t[5..]) == Prepend(t[5], 1, tail);
    assert Scan(t[4..]) == Prepend(t[4], 1, Scan(t[5..]));
    assert Scan(t[3..]) == Prepend(t[3], 1, Scan(t[4..]));
    assert Scan(t[2..]) == Prepend(t[2], 1, Scan(t[3..]));
    assert Scan(t) == Prepend(t[1], 2, Scan(t[2..]));
    if tail.Some? {
      assert t[1..6] + tail.value.0 == [t[1]] + ([t[2]] + ([t[3]] + ([t[4]] + ([t[5]] + tail.value.0))));
    }
  }

  /** On any JSON string the scanner stops where the reader does, four bytes too long for every such escape. */
  lemma {:induction false} ScansJson(t: bytes)
    requires ReadString(t).Got?
    ensures Scan(t).Some? && Scan(t).value.1 + 1 + |ReadString(t).rest| == |t|
    ensures |Scan(t).value.0| == |ReadString(t).value| + 4 * HexEscapes(t)
    ensures HexEscapes(t) == 0 ==> Scan(t).value.0 == ReadString(t).value
  {
    if t[0] == QUOTE {
    } else if t[0] != BACKSLASH {
      ScansJson(t[1..]);
    } else if IsSimpleEscape(t[1]) {
      ScansJson(t[2..]);
    } else {
      ScansJson(t[6..]);
      HexIsScanned(t);
    }
  }

  /** One of them: the letter A by its number comes out as the letter u and four digits. */
  lemma HexEscapeIsMisread()
    ensures var t := [BACKSLASH, 0x75, 0x30, 0x30, 0x34, 0x31, QUOTE];
      ReadString(t) == Got([0x41], []) && Scan(t) == Some(([0x75, 0x30, 0x30, 0x34, 0x31], 6))
  {
    var t := [BACKSLASH, 0x75, 0x30, 0x30, 0x34, 0x31, QUOTE];
    assert t[6..] == [QUOTE] && [QUOTE][1..] == [] && t[1..6] == [0x75, 0x30, 0x30, 0x34, 0x31];
    HexIsScanned(t);
    assert Scan(t[6..]) == Some(([], 0));
    assert t[1..6] + [] == t[1..6];
    assert ReadString([QUOTE]) == Got([], []);
    assert 16 * Unhex(t[4]) + Unhex(t[5]) == 0x41;
    var a: bytes := [0x41];
    assert a + [] == a;
  }

  /** A field whose value is any JSON string is read as that string if and only if it holds no such escape. */
  lemma JsonFieldReadsBack(text: bytes, name: bytes, key: nat, colon: nat, open: nat)
    requires FieldStandsAt(text, name, key, colon, open) && text[open] == QUOTE && ReadString(text[open + 1..]).Got?
    requires forall i | 0 <= i < key :: !MatchesAt(text, [QUOTE] + name + [QUOTE], i)
    ensures StringField(text, name) == Some(ReadString(text[open + 1..]).value) <==> HexEscapes(text[open + 1..]) == 0
  {
    FieldIsScanned(text, name, key, colon, open);
    ScansJson(text[open + 1..]);
  }
}
