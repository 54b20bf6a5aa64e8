/** The plugin's hand-written JSON: rendering a MessagePack tree, escaping strings,
    and the two text scanners that read fields back without a JSON parser. */
module JsonText {
  import opened Wire
  import opened MsgPack
  import opened Options

  // ----- Rendering -----

  function EscapeByte(c: byte): bytes {
    if c == BACKSLASH then [BACKSLASH, BACKSLASH]
    else if c == QUOTE then [BACKSLASH, QUOTE]
    else if c == 0x0a then [BACKSLASH, 'n' as int]
    else if c == 0x0d then [BACKSLASH, 'r' as int]
    else if c == 0x09 then [BACKSLASH, 't' as int]
    else [c]
  }

  function Escape(s: bytes): bytes {
    if s == [] then [] else EscapeByte(s[0]) + Escape(s[1..])
  }

  function Literal(s: bytes): bytes { [QUOTE] + Escape(s) + [QUOTE] }

  /** Decimal digits without leading zeros. */
  function Decimal(n: nat): bytes {
    if n < 10 then [48 + n] else Decimal(n / 10) + [48 + n % 10]
  }

  /** The JSON text of a string-keyed tree. */
  function Render(v: Value): bytes
    decreases v, 1
  {
    match v
    case Nil => Ascii("null")
    case Bool(b) => if b then Ascii("true") else Ascii("false")
    case UInt(n) => Decimal(n)
    case Str(s) => Literal(s)
    case ArrayOf(items) => Ascii("[") + RenderItems(items) + Ascii("]")
    case MapOf(kvs) => Ascii("{") + RenderFields(kvs) + Ascii("}")
  }

  function RenderItems(items: seq<Value>): bytes
    decreases items, 0
  {
    if items == [] then []
    else
      var n := |items| - 1;
      RenderItems(items[..n]) + (if n > 0 then [COMMA] else []) + Render(items[n])
  }

  function RenderFields(kvs: seq<Value>): bytes
    decreases kvs, 0
  {
    if |kvs| < 2 then []
    else
      var n := |kvs| - 2;
      RenderFields(kvs[..n]) + (if n > 0 then [COMMA] else [])
      + (if kvs[n].Str? then Literal(kvs[n].s) else []) + [COLON] + Render(kvs[n + 1])
  }

  lemma RenderFieldsSnoc(kvs: seq<Value>, key: bytes, x: Value)
    ensures RenderFields(kvs + [Str(key), x]) ==
      RenderFields(kvs) + (if kvs != [] then [COMMA] else []) + Literal(key) + [COLON] + Render(x)
  {
    var all := kvs + [Str(key), x];
    assert all[..|all| - 2] == kvs;
  }

  lemma RenderFieldJoins(kvs: seq<Value>, key: bytes, x: Value)
    ensures RenderFields(kvs + [Str(key), x]) ==
      RenderFields(kvs) + (if kvs != [] then [COMMA] else []) + (Literal(key) + [COLON] + Render(x))
  {
    RenderFieldsSnoc(kvs, key, x);
    Regroup(RenderFields(kvs) + (if kvs != [] then [COMMA] else []), Literal(key), [COLON], Render(x));
  }

  lemma RenderItemsSnoc(items: seq<Value>, x: Value)
    ensures RenderItems(items + [x]) == RenderItems(items) + (if items != [] then [COMMA] else []) + Render(x)
  {
    var all := items + [x];
    assert all[..|all| - 1] == items;
  }

  // ----- Scanning -----

  function UnescapeByte(c: byte): byte {
    if c == 'b' as int then 0x08
    else if c == 'f' as int then 0x0c
    else if c == 'n' as int then 0x0a
    else if c == 'r' as int then 0x0d
    else if c == 't' as int then 0x09
    else c
  }

  /** The body of a string literal: its value, and the offset of its closing quote. */
  function Scan(text: bytes): Option<(bytes, nat)> {
    if text == [] then None
    else if text[0] == QUOTE then Some(([], 0))
    else if text[0] != BACKSLASH then Prepend(text[0], 1, Scan(text[1..]))
    else if |text| == 1 then None
    else Prepend(UnescapeByte(text[1]), 2, Scan(text[2..]))
  }

  function Prepend(c: byte, used: nat, r: Option<(bytes, nat)>): Option<(bytes, nat)> {
    match r
    case None => None
    case Some((value, end)) => Some(([c] + value, used + end))
  }

  predicate MatchesAt(text: bytes, needle: bytes, i: nat) {
    i + |needle| <= |text| && text[i..i + |needle|] == needle
  }

  /** `std::string::find`: the first occurrence at or after `from`. */
  function Find(text: bytes, needle: bytes, from: nat): (r: Option<nat>)
    ensures r.Some? ==> from <= r.value && MatchesAt(text, needle, r.value)
    ensures r.Some? ==> forall i | from <= i < r.value :: !MatchesAt(text, needle, i)
    ensures r.None? ==> forall i | from <= i :: !MatchesAt(text, needle, i)
    decreases |text| - from
  {
    if from + |needle| > |text| then None
    else if MatchesAt(text, needle, from) then Some(from)
    else Find(text, needle, from + 1)
  }

  lemma NoMatch(text: bytes, needle: bytes, i: nat, k: nat)
    requires k < |needle| && i + k < |text| && text[i + k] != needle[k]
    ensures !MatchesAt(text, needle, i)
  {
    if i + |needle| <= |text| {
      assert text[i..i + |needle|][k] == text[i + k];
    }
  }

  predicate IsSpace(c: byte) { c == 0x20 || 0x09 <= c <= 0x0d }

  function SkipSpace(text: bytes, pos: nat): (r: nat)
    requires pos <= |text|
    ensures pos <= r <= |text|
    decreases |text| - pos
  {
    if pos < |text| && IsSpace(text[pos]) then SkipSpace(text, pos + 1) else pos
  }

  /** The value of the literal at `pos`, if one stands there. */
  function StringAt(text: bytes, pos: nat): Option<bytes>
    requires pos <= |text|
  {
    if pos == |text| || text[pos] != QUOTE then None
    else
      match Scan(text[pos + 1..])
      case None => None
      case Some((value, _)) => Some(value)
  }

  /** The string after the first `"name"` and the next colon, if a literal stands there. */
  function StringField(text: bytes, name: bytes): Option<bytes> {
    var needle := [QUOTE] + name + [QUOTE];
    match Find(text, needle, 0)
    case None => None
    case Some(key) =>
      match Find(text, [COLON], key + |needle|)
      case None => None
      case Some(colon) => StringAt(text, SkipSpace(text, colon + 1))
  }

  const TYPE_NEEDLE: bytes := Ascii("\"type\":\"")

  /** The text between `"type":"` and the next quote; empty when there is none. */
  function EnvelopeType(text: bytes): bytes {
    match Find(text, TYPE_NEEDLE, 0)
    case None => []
    case Some(start) =>
      match Find(text, [QUOTE], start + |TYPE_NEEDLE|)
      case None => []
      case Some(end) => text[start + |TYPE_NEEDLE|..end]
  }

  // ----- Loops -----

  method JsonEscape(input: bytes) returns (out: bytes)
    ensures out == Escape(input)
  {
    out := [];
    for i := 0 to |input|
      invariant out + Escape(input[i..]) == Escape(input)
    {
      var ch := input[i];
      ghost var before := out;
      if ch == BACKSLASH {
        out := out + [BACKSLASH, BACKSLASH];
      } else if ch == QUOTE {
        out := out + [BACKSLASH, QUOTE];
      } else if ch == 0x0a {
        out := out + [BACKSLASH, 'n' as int];
      } else if ch == 0x0d {
        out := out + [BACKSLASH, 'r' as int];
      } else if ch == 0x09 {
        out := out + [BACKSLASH, 't' as int];
      } else {
        out := out + [ch];
      }
      assert out == before + EscapeByte(ch);
      EscapeStep(before, input, i);
    }
  }

  lemma EscapeStep(before: bytes, input: bytes, i: nat)
    requires i < |input|
    ensures before + Escape(input[i..]) == before + EscapeByte(input[i]) + Escape(input[i + 1..])
  {
    assert input[i..][1..] == input[i + 1..];
    var e := EscapeByte(input[i]);
    assert Escape(input[i..]) == e + Escape(input[i + 1..]);
  }

  function Concat(value: bytes, used: nat, r: Option<(bytes, nat)>): Option<(bytes, nat)> {
    match r
    case None => None
    case Some((rest, end)) => Some((value + rest, used + end))
  }

  lemma ConcatNothing(r: Option<(bytes, nat)>)
    ensures r == Concat([], 0, r)
  {
    match r
    case None =>
    case Some((value, _)) => assert [] + value == value;
  }

  lemma ConcatPrepend(value: bytes, used: nat, c: byte, k: nat, r: Option<(bytes, nat)>)
    ensures Concat(value, used, Prepend(c, k, r)) == Concat(value + [c], used + k, r)
  {
    match r
    case None =>
    case Some((rest, _)) => assert value + ([c] + rest) == value + [c] + rest;
  }

  /** The scanner's loop: one byte at a time, with a flag for a pending backslash. */
  method ScanBody(text: bytes, start: nat) returns (r: Option<bytes>)
    requires start <= |text|
    ensures r == match Scan(text[start..]) case None => None case Some((value, _)) => Some(value)
  {
    var pos, value: bytes, escaping := start, [], false;
    ConcatNothing(Scan(text[start..]));
    while pos < |text|
      invariant start <= pos <= |text|
      invariant escaping ==> start < pos && text[pos - 1] == BACKSLASH
      invariant !escaping ==> Scan(text[start..]) == Concat(value, pos - start, Scan(text[pos..]))
      invariant escaping ==> Scan(text[start..]) == Concat(value, pos - 1 - start, Scan(text[pos - 1..]))
    {
      var ch := text[pos];
      assert text[pos..][1..] == text[pos + 1..];
      if escaping {
        assert text[pos - 1..][2..] == text[pos + 1..];
        ConcatPrepend(value, pos - 1 - start, UnescapeByte(ch), 2, Scan(text[pos + 1..]));
        value := value + [UnescapeByte(ch)];
        escaping := false;
      } else if ch == BACKSLASH {
        escaping := true;
      } else if ch == QUOTE {
        assert value + [] == value;
        return Some(value);
      } else {
        ConcatPrepend(value, pos - start, ch, 1, Scan(text[pos + 1..]));
        value := value + [ch];
      }
      pos := pos + 1;
    }
    return None;
  }

  method TryExtractJsonStringField(text: bytes, name: bytes) returns (r: Option<bytes>)
    ensures r == StringField(text, name)
  {
    var needle := [QUOTE] + name + [QUOTE];
    var key := Find(text, needle, 0);
    if key.None? {
      return None;
    }
    var colon := Find(text, [COLON], key.value + |needle|);
    if colon.None? {
      return None;
    }
    var pos := colon.value + 1;
    while pos < |text| && IsSpace(text[pos])
      invariant colon.value + 1 <= pos <= |text|
      invariant SkipSpace(text, colon.value + 1) == SkipSpace(text, pos)
    {
      pos := pos + 1;
    }
    if pos >= |text| || text[pos] != QUOTE {
      return None;
    }
    r := ScanBody(text, pos + 1);
  }

  // ----- Laws -----

  /** Scanning over one escaped byte. */
  lemma ScanOverByte(c: byte, text: bytes)
    ensures Scan(EscapeByte(c) + text) == Prepend(c, |EscapeByte(c)|, Scan(text))
  {
    var t := EscapeByte(c) + text;
    assert t[|EscapeByte(c)|..] == text;
  }

  /** Scanning a literal built by the escaper returns the original string and stops at its closing quote. */
  lemma {:induction false} ScanUndoesEscape(s: bytes, rest: bytes)
    ensures Scan(Escape(s) + [QUOTE] + rest) == Some((s, |Escape(s)|))
  {
    if s == [] {
      assert Escape(s) + [QUOTE] + rest == [QUOTE] + rest;
    } else {
      var e, tail := EscapeByte(s[0]), Escape(s[1..]);
      ScanOverByte(s[0], tail + [QUOTE] + rest);
      ScanUndoesEscape(s[1..], rest);
      assert [s[0]] + s[1..] == s;
      assert Escape(s) + [QUOTE] + rest == e + (tail + [QUOTE] + rest);
    }
  }

  lemma FoundAtOnce(text: bytes, needle: bytes, from: nat)
    requires from + |needle| <= |text| && text[from..from + |needle|] == needle
    ensures Find(text, needle, from) == Some(from)
  {
  }

  lemma {:induction false} FoundFirst(text: bytes, needle: bytes, from: nat, at: nat)
    requires from <= at && MatchesAt(text, needle, at) && forall i | from <= i < at :: !MatchesAt(text, needle, i)
    ensures Find(text, needle, from) == Some(at)
    decreases at - from
  {
    if from < at {
      FoundFirst(text, needle, from + 1, at);
    }
  }

  lemma ColonBehind(text: bytes, from: nat, at: nat)
    requires from <= at < |text| && text[at] == COLON && COLON !in text[from..at]
    ensures Find(text, [COLON], from) == Some(at)
  {
    assert text[at..at + 1] == [COLON];
    forall i | from <= i < at ensures !MatchesAt(text, [COLON], i) {
      assert text[i] == text[from..at][i - from];
      NoMatch(text, [COLON], i, 0);
    }
    FoundFirst(text, [COLON], from, at);
  }

  lemma {:induction false} SpaceSkipped(text: bytes, pos: nat, end: nat)
    requires pos <= end < |text| && !IsSpace(text[end]) && forall i | pos <= i < end :: IsSpace(text[i])
    ensures SkipSpace(text, pos) == end
    decreases end - pos
  {
    if pos < end {
      SpaceSkipped(text, pos + 1, end);
    }
  }

  /** A field stands in the text: its quoted name at `key`, the next colon at `colon`, its value at `open`, and between
      these two nothing but blanks, tabs and line ends. */
  ghost predicate FieldStandsAt(text: bytes, name: bytes, key: nat, colon: nat, open: nat) {
    var needle := [QUOTE] + name + [QUOTE];
    && key + |needle| <= colon < open < |text|
    && MatchesAt(text, needle, key) && text[colon] == 0x3a && 0x3a !in text[key + |needle|..colon]
    && !(text[open] == 0x20 || 0x09 <= text[open] <= 0x0d)
    && forall i | colon < i < open :: text[i] == 0x20 || 0x09 <= text[i] <= 0x0d
  }

  /** Where the quoted name does not occur earlier, the field is read as the scanner reads its literal, and not at all if
      it is none. */
  lemma FieldIsScanned(text: bytes, name: bytes, key: nat, colon: nat, open: nat)
    requires FieldStandsAt(text, name, key, colon, open)
    requires forall i | 0 <= i < key :: !MatchesAt(text, [QUOTE] + name + [QUOTE], i)
    ensures StringField(text, name) ==
      if text[open] != 0x22 then None
      else match Scan(text[open + 1..]) case None => None case Some((value, _)) => Some(value)
  {
    var needle := [QUOTE] + name + [QUOTE];
    FoundFirst(text, needle, 0, key);
    ColonBehind(text, key + |needle|, colon);
    SpaceSkipped(text, colon + 1, open);
  }

  /** A string written as a field anywhere behind any text in which the quoted name does not occur is read back, whatever
      it contains, whatever space stands before it, and whatever follows. */
  lemma FieldReadsBack(text: bytes, name: bytes, key: nat, colon: nat, open: nat, s: bytes, rest: bytes)
    requires FieldStandsAt(text, name, key, colon, open) && text[open..] == Literal(s) + rest
    requires forall i | 0 <= i < key :: !MatchesAt(text, [QUOTE] + name + [QUOTE], i)
    ensures StringField(text, name) == Some(s)
  {
    FieldIsScanned(text, name, key, colon, open);
    assert text[open + 1..] == text[open..][1..] == Escape(s) + [QUOTE] + rest;
    ScanUndoesEscape(s, rest);
  }

  /** So is a string written as the first field of an object. */
  lemma FirstFieldReadsBack(name: bytes, s: bytes, rest: bytes)
    ensures StringField(Ascii("{") + [QUOTE] + name + [QUOTE] + [COLON] + Literal(s) + rest, name) == Some(s)
  {
    var needle := [QUOTE] + name + [QUOTE];
    var text := Ascii("{") + [QUOTE] + name + [QUOTE] + [COLON] + Literal(s) + rest;
    var c := |name| + 3;
    assert text[1..c] == needle && text[c] == COLON && text[c + 1..] == Literal(s) + rest;
    NoMatch(text, needle, 0, 0);
    FieldReadsBack(text, name, 1, c, c + 1, s, rest);
  }
}
