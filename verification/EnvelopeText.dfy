/** Reading the type out of an envelope's JSON text by plain substring search: what the plugin's
    replay cache and dock bridge rely on. */
module EnvelopeText {
  import opened Wire
  import opened MsgPack
  import opened JsonText
  import opened Options

  /** An envelope with the fields in the order in which the core serialises them. */
  function CoreEnvelope(v: nat, id: bytes, ts: nat, kind: bytes, priority: bytes, payload: Value): Value {
    MapOf([Str(Ascii("v")), UInt(v), Str(Ascii("id")), Str(id), Str(Ascii("ts_unix_ms")), UInt(ts),
           Str(Ascii("type")), Str(kind), Str(Ascii("priority")), Str(priority), Str(Ascii("payload")), payload])
  }

  /** No byte of `s` needs an escape. */
  predicate EscapeFree(s: bytes) {
    forall i | 0 <= i < |s| :: EscapeByte(s[i]) == [s[i]]
  }

  lemma EscapeFreeCons(c: byte, t: bytes)
    ensures EscapeFree([c] + t) <==> EscapeByte(c) == [c] && EscapeFree(t)
  {
    var s := [c] + t;
    if EscapeFree(s) {
      assert EscapeByte(s[0]) == [s[0]];
      forall i | 0 <= i < |t| ensures EscapeByte(t[i]) == [t[i]] {
        assert s[i + 1] == t[i];
      }
    }
  }

  lemma EscapeByteLengthens(c: byte)
    ensures |EscapeByte(c)| >= 1 && (EscapeByte(c) == [c] <==> |EscapeByte(c)| == 1)
  {
  }

  lemma {:induction false} EscapeLengthens(s: bytes)
    ensures EscapeFree(s) ==> Escape(s) == s
    ensures |Escape(s)| >= |s|
    ensures !EscapeFree(s) ==> |Escape(s)| > |s|
  {
    if s != [] {
      var c, t := s[0], s[1..];
      assert s == [c] + t;
      EscapeFreeCons(c, t);
      EscapeByteLengthens(c);
      EscapeLengthens(t);
      assert Escape(s) == EscapeByte(c) + Escape(t);
    }
  }

  /** Inside an escaped string every quote follows a backslash. */
  lemma {:induction false} QuotesAreEscaped(s: bytes, k: nat)
    requires k < |Escape(s)| && Escape(s)[k] == QUOTE
    ensures k > 0 && Escape(s)[k - 1] == BACKSLASH && QUOTE in s
  {
    var e := EscapeByte(s[0]);
    if k >= |e| {
      QuotesAreEscaped(s[1..], k - |e|);
    }
  }

  /** The first `"type":"` in `text` is at `n`. */
  ghost predicate FirstNeedle(text: bytes, n: nat) {
    MatchesAt(text, TYPE_NEEDLE, n) && forall i | 0 <= i < n :: !MatchesAt(text, TYPE_NEEDLE, i)
  }

  lemma NeedleShift(a: bytes, t: bytes, i: nat)
    ensures MatchesAt(a + t, TYPE_NEEDLE, |a| + i) <==> MatchesAt(t, TYPE_NEEDLE, i)
  {
    if i + |TYPE_NEEDLE| <= |t| {
      assert (a + t)[|a| + i..|a| + i + |TYPE_NEEDLE|] == t[i..i + |TYPE_NEEDLE|];
    }
  }

  /** Putting text in front that holds no occurrence, not even one that runs over its end. */
  lemma FirstNeedleShift(a: bytes, t: bytes, n: nat)
    requires FirstNeedle(t, n) && forall i | 0 <= i < |a| :: !MatchesAt(a + t, TYPE_NEEDLE, i)
    ensures FirstNeedle(a + t, |a| + n)
    ensures (a + t)[|a| + n..] == t[n..]
  {
    NeedleShift(a, t, n);
    forall i | 0 <= i < |a| + n
      ensures !MatchesAt(a + t, TYPE_NEEDLE, i)
    {
      if i >= |a| { NeedleShift(a, t, i - |a|); }
    }
  }

  /** Text without quotes. */
  lemma PlainIsClear(a: bytes, t: bytes)
    requires QUOTE !in a
    ensures forall i | 0 <= i < |a| :: !MatchesAt(a + t, TYPE_NEEDLE, i)
  {
    forall i | 0 <= i < |a|
      ensures !MatchesAt(a + t, TYPE_NEEDLE, i)
    {
      NoMatch(a + t, TYPE_NEEDLE, i, 0);
    }
  }

  function Key(name: bytes): bytes { [QUOTE] + name + [QUOTE, COLON] }

  /** A key that is not `type`, with its separators. */
  lemma KeyIsClear(a: bytes, name: bytes, t: bytes)
    requires a == Key(name) && QUOTE !in name
    requires name != [] && (name[0] != TYPE_NEEDLE[1] || (|name| > 1 && name[1] != TYPE_NEEDLE[2]))
    ensures forall i | 0 <= i < |a| :: !MatchesAt(a + t, TYPE_NEEDLE, i)
  {
    forall i | 0 <= i < |a|
      ensures !MatchesAt(a + t, TYPE_NEEDLE, i)
    {
      if i == 0 {
        if name[0] != TYPE_NEEDLE[1] {
          NoMatch(a + t, TYPE_NEEDLE, 0, 1);
        } else {
          NoMatch(a + t, TYPE_NEEDLE, 0, 2);
        }
      } else if i == |a| - 2 {
        NoMatch(a + t, TYPE_NEEDLE, i, 1);
      } else {
        NoMatch(a + t, TYPE_NEEDLE, i, 0);
      }
    }
  }

  /** A string literal followed by a comma, whatever the string contains. */
  lemma LiteralIsClear(s: bytes, t: bytes)
    requires t != [] && t[0] == COMMA
    ensures forall i | 0 <= i < |Literal(s)| :: !MatchesAt(Literal(s) + t, TYPE_NEEDLE, i)
  {
    var a, body, text := Literal(s), Escape(s), Literal(s) + t;
    var close := |body| + 1;
    forall i | 0 <= i < |a|
      ensures !MatchesAt(text, TYPE_NEEDLE, i)
    {
      if i == close {
        NoMatch(text, TYPE_NEEDLE, i, 1);
      } else if i + 5 > close {
        NoMatch(text, TYPE_NEEDLE, i, close - i);
      } else if i + 5 == close {
        NoMatch(text, TYPE_NEEDLE, i, 6);
      } else if text[i + 5] == QUOTE {
        assert text[i + 5] == body[i + 4];
        QuotesAreEscaped(s, i + 4);
        assert text[i + 4] == body[i + 3];
        NoMatch(text, TYPE_NEEDLE, i, 4);
      } else {
        NoMatch(text, TYPE_NEEDLE, i, 5);
      }
    }
  }

  lemma {:induction false} DigitsAreNotQuotes(n: nat)
    ensures forall c | c in Decimal(n) :: 48 <= c <= 57
  {
    if n >= 10 { DigitsAreNotQuotes(n / 10); }
  }

  // ----- The shape of a rendered envelope -----

  /** The rendering of some fields begins the rendering of more fields. */
  lemma {:induction false} RenderFieldsPrefix(kvs: seq<Value>, all: seq<Value>, text: bytes)
    requires |kvs| % 2 == 0 && |all| % 2 == 0 && kvs <= all
    requires RenderFields(kvs) == text
    ensures text <= RenderFields(all)
    decreases |all|
  {
    if |kvs| < |all| {
      var n := |all| - 2;
      RenderFieldsPrefix(kvs, all[..n], text);
    } else {
      assert kvs == all;
    }
  }

  /** One field and its comma, in front of `t`. */
  function FieldThen(name: bytes, x: Value, t: bytes): bytes {
    Key(name) + (Render(x) + ([COMMA] + t))
  }

  lemma KeyText(name: bytes)
    requires EscapeFree(name)
    ensures Literal(name) + [COLON] == Key(name)
  {
    EscapeLengthens(name);
  }

  lemma FieldText(kvs: seq<Value>, name: bytes, x: Value)
    requires |kvs| % 2 == 0 && EscapeFree(name)
    ensures RenderFields(kvs + [Str(name), x]) ==
      RenderFields(kvs) + (if kvs != [] then [COMMA] else []) + (Key(name) + Render(x))
  {
    RenderFieldsSnoc(kvs, name, x);
    KeyText(name);
    Regroup(RenderFields(kvs) + (if kvs != [] then [COMMA] else []), Literal(name), [COLON], Render(x));
  }

  lemma FieldThenText(a: bytes, kvs: seq<Value>, name: bytes, x: Value, t: bytes)
    requires |kvs| % 2 == 0 && EscapeFree(name)
    ensures a + RenderFields(kvs + [Str(name), x]) + ([COMMA] + t) ==
      a + RenderFields(kvs) + (if kvs != [] then [COMMA] + FieldThen(name, x, t) else FieldThen(name, x, t))
  {
    FieldText(kvs, name, x);
    var r, c, k, v := RenderFields(kvs), if kvs != [] then [COMMA] else [], Key(name), Render(x);
    FieldThenSpacing(a, r, c, k, v, [COMMA] + t);
    assert kvs == [] ==> c + (k + (v + ([COMMA] + t))) == k + (v + ([COMMA] + t));
  }

  lemma FieldThenSpacing(a: bytes, r: bytes, c: bytes, k: bytes, v: bytes, t: bytes)
    ensures a + (r + c + (k + v)) + t == a + r + (c + (k + (v + t)))
  {
    assert (k + v) + t == k + (v + t);
    assert r + c + (k + v) + t == r + (c + (k + (v + t)));
  }

  /** What precedes the `type` field. */
  function BeforeType(v: nat, id: bytes, ts: nat): seq<Value> {
    [Str(Ascii("v")), UInt(v), Str(Ascii("id")), Str(id), Str(Ascii("ts_unix_ms")), UInt(ts)]
  }

  function TextBeforeType(v: nat, id: bytes, ts: nat, t: bytes): bytes {
    Ascii("{") + FieldThen(Ascii("v"), UInt(v),
      FieldThen(Ascii("id"), Str(id), FieldThen(Ascii("ts_unix_ms"), UInt(ts), t)))
  }

  lemma ThreeFields(open: bytes, n1: bytes, x1: Value, n2: bytes, x2: Value, n3: bytes, x3: Value, t: bytes)
    requires EscapeFree(n1) && EscapeFree(n2) && EscapeFree(n3)
    ensures open + RenderFields([Str(n1), x1, Str(n2), x2, Str(n3), x3]) + ([COMMA] + t) ==
      open + FieldThen(n1, x1, FieldThen(n2, x2, FieldThen(n3, x3, t)))
  {
    var f1 := [Str(n1), x1];
    var f2 := f1 + [Str(n2), x2];
    assert [Str(n1), x1, Str(n2), x2, Str(n3), x3] == f2 + [Str(n3), x3];
    FieldThenText(open, f2, n3, x3, t);
    FieldThenText(open, f1, n2, x2, FieldThen(n3, x3, t));
    FieldThenText(open, [], n1, x1, FieldThen(n2, x2, FieldThen(n3, x3, t)));
    assert [] + f1 == f1;
    assert open + RenderFields([]) == open;
  }

  lemma RenderBeforeType(v: nat, id: bytes, ts: nat, t: bytes)
    ensures Ascii("{") + RenderFields(BeforeType(v, id, ts)) + ([COMMA] + t) == TextBeforeType(v, id, ts, t)
  {
    ThreeFields(Ascii("{"), Ascii("v"), UInt(v), Ascii("id"), Str(id), Ascii("ts_unix_ms"), UInt(ts), t);
  }

  /** The search steps over quote-free text. */
  lemma StepOverPlain(a: bytes, t: bytes, n: nat) returns (m: nat)
    requires FirstNeedle(t, n) && QUOTE !in a
    ensures FirstNeedle(a + t, m) && (a + t)[m..] == t[n..]
  {
    PlainIsClear(a, t);
    FirstNeedleShift(a, t, n);
    m := |a| + n;
  }

  /** The search steps over a field whose value is a number or a string. */
  lemma StepOverField(name: bytes, x: Value, t: bytes, n: nat) returns (m: nat)
    requires FirstNeedle(t, n) && (x.UInt? || x.Str?) && QUOTE !in name
    requires name != [] && (name[0] != TYPE_NEEDLE[1] || (|name| > 1 && name[1] != TYPE_NEEDLE[2]))
    ensures FirstNeedle(FieldThen(name, x, t), m) && FieldThen(name, x, t)[m..] == t[n..]
  {
    var rest := Render(x) + ([COMMA] + t);
    m := StepOverValue(x, t, n);
    KeyIsClear(Key(name), name, rest);
    FirstNeedleShift(Key(name), rest, m);
    m := |Key(name)| + m;
  }

  lemma StepOverValue(x: Value, t: bytes, n: nat) returns (m: nat)
    requires FirstNeedle(t, n) && (x.UInt? || x.Str?)
    ensures FirstNeedle(Render(x) + ([COMMA] + t), m) && (Render(x) + ([COMMA] + t))[m..] == t[n..]
  {
    var rest := [COMMA] + t;
    m := StepOverPlain([COMMA], t, n);
    if x.UInt? {
      DigitsAreNotQuotes(x.n);
      m := StepOverPlain(Render(x), rest, m);
    } else {
      LiteralIsClear(x.s, rest);
      FirstNeedleShift(Render(x), rest, m);
      m := |Render(x)| + m;
    }
  }

  lemma NeedleAfterText(v: nat, id: bytes, ts: nat, t: bytes) returns (n: nat)
    requires FirstNeedle(t, 0)
    ensures FirstNeedle(TextBeforeType(v, id, ts, t), n)
    ensures TextBeforeType(v, id, ts, t)[n..] == t
  {
    n := StepOverField(Ascii("ts_unix_ms"), UInt(ts), t, 0);
    var t3 := FieldThen(Ascii("ts_unix_ms"), UInt(ts), t);
    n := StepOverField(Ascii("id"), Str(id), t3, n);
    var t2 := FieldThen(Ascii("id"), Str(id), t3);
    n := StepOverField(Ascii("v"), UInt(v), t2, n);
    var t1 := FieldThen(Ascii("v"), UInt(v), t2);
    n := StepOverPlain(Ascii("{"), t1, n);
  }

  /** The search for the closing quote stops at the first quote of the escaped type, or right after it. */
  lemma FirstQuote(text: bytes, start: nat)
    requires start <= |text|
    ensures var r := Find(text, [QUOTE], start);
      if r.Some? then r.value < |text| && text[r.value] == QUOTE && QUOTE !in text[start..r.value]
      else QUOTE !in text[start..]
  {
    var r := Find(text, [QUOTE], start);
    forall i | start <= i < |text| ensures MatchesAt(text, [QUOTE], i) <==> text[i] == QUOTE {
      assert text[i..i + 1] == [text[i]];
    }
  }

  lemma CloseQuoteFound(text: bytes, start: nat, body: bytes, rest: bytes)
    requires start <= |text| && text[start..] == body + [QUOTE] + rest
    ensures Find(text, [QUOTE], start).Some?
    ensures var end := Find(text, [QUOTE], start).value;
      end <= start + |body| && text[start..end] == body[..end - start] && QUOTE !in body[..end - start]
      && (end < start + |body| ==> body[end - start] == QUOTE)
  {
    FirstQuote(text, start);
    var tail := text[start..];
    assert tail[|body|] == QUOTE;
    var end := Find(text, [QUOTE], start).value - start;
    assert text[start..start + end] == tail[..end];
    QuoteInBody(body, rest, end);
  }

  lemma QuoteInBody(body: bytes, rest: bytes, end: nat)
    requires var tail := body + [QUOTE] + rest; end < |tail| && tail[end] == QUOTE && QUOTE !in tail[..end]
    ensures end <= |body| && (body + [QUOTE] + rest)[..end] == body[..end] && (end < |body| ==> body[end] == QUOTE)
  {
    var tail := body + [QUOTE] + rest;
    assert tail[|body|] == QUOTE;
    forall k | 0 <= k < end ensures tail[k] != QUOTE { assert tail[k] == tail[..end][k]; }
  }

  lemma UpToQuote(kind: bytes, k: nat)
    requires k <= |Escape(kind)| && QUOTE !in Escape(kind)[..k]
    requires k < |Escape(kind)| ==> Escape(kind)[k] == QUOTE
    ensures Escape(kind)[..k] == kind <==> EscapeFree(kind)
  {
    EscapeLengthens(kind);
    if k < |Escape(kind)| {
      QuotesAreEscaped(kind, k);
      var i :| 0 <= i < |kind| && kind[i] == QUOTE;
      assert EscapeByte(kind[i]) != [kind[i]];
    } else {
      assert Escape(kind)[..k] == Escape(kind);
    }
  }

  /** On the JSON text of an envelope in the core's field order, the substring search returns the envelope's type
      exactly when the type needs no escape, whatever the id, the priority and the payload contain. */
  lemma EnvelopeTypeIsExact(v: nat, id: bytes, ts: nat, kind: bytes, priority: bytes, payload: Value)
    ensures EnvelopeType(Render(CoreEnvelope(v, id, ts, kind, priority, payload))) == kind <==> EscapeFree(kind)
  {
    var before := BeforeType(v, id, ts);
    var fields := CoreEnvelope(v, id, ts, kind, priority, payload).kvs;
    var text := Render(MapOf(fields));
    var more := FieldAmong(before, Ascii("type"), Str(kind), fields);
    RenderBeforeType(v, id, ts, TypeFieldThen(kind, more));
    TypeFieldStarts(kind, more);
    var n := NeedleAfterText(v, id, ts, TypeFieldThen(kind, more));
    TypeAfterNeedle(text, n, kind, more);
  }

  lemma CutAtQuote(text: bytes, start: nat, kind: bytes, more: bytes)
    requires start <= |text| && text[start..] == Escape(kind) + [QUOTE] + more
    ensures var end := Find(text, [QUOTE], start); end.Some? && (text[start..end.value] == kind <==> EscapeFree(kind))
  {
    CloseQuoteFound(text, start, Escape(kind), more);
    UpToQuote(kind, Find(text, [QUOTE], start).value - start);
  }

  lemma TypeAfterNeedle(text: bytes, n: nat, kind: bytes, more: bytes)
    requires FirstNeedle(text, n) && text[n..] == TypeFieldThen(kind, more)
    ensures EnvelopeType(text) == kind <==> EscapeFree(kind)
  {
    assert Find(text, TYPE_NEEDLE, 0) == Some(n);
    assert text[n + 8..] == Escape(kind) + [QUOTE] + more by {
      TypeFieldStarts(kind, more);
      assert text[n + 8..] == text[n..][8..];
    }
    CutAtQuote(text, n + 8, kind, more);
  }

  function TypeFieldThen(kind: bytes, more: bytes): bytes {
    Key(Ascii("type")) + Literal(kind) + more
  }

  lemma TypeFieldStarts(kind: bytes, more: bytes)
    ensures FirstNeedle(TypeFieldThen(kind, more), 0)
    ensures TypeFieldThen(kind, more)[8..] == Escape(kind) + [QUOTE] + more
  {
    var t := TypeFieldThen(kind, more);
    assert Key(Ascii("type")) + [QUOTE] == TYPE_NEEDLE;
    assert t == TYPE_NEEDLE + (Escape(kind) + [QUOTE] + more);
  }

  /** A field in the middle of an object, and the text on both sides of it. */
  lemma FieldAmong(before: seq<Value>, name: bytes, x: Value, fields: seq<Value>) returns (more: bytes)
    requires before != [] && |before| % 2 == 0 && |fields| % 2 == 0 && EscapeFree(name)
    requires before + [Str(name), x] <= fields
    ensures Render(MapOf(fields)) == Ascii("{") + RenderFields(before) + ([COMMA] + (Key(name) + Render(x) + more))
  {
    var upTo := before + [Str(name), x];
    RenderFieldsPrefix(upTo, fields, RenderFields(upTo));
    var tail := Tail(RenderFields(fields), RenderFields(upTo));
    more := tail + Ascii("}");
    FieldText(before, name, x);
    Surround(Ascii("{"), RenderFields(before), [COMMA], Key(name) + Render(x), tail, Ascii("}"));
  }

  function Tail(text: bytes, start: bytes): (tail: bytes)
    requires start <= text
    ensures text == start + tail
  {
    text[|start|..]
  }

  lemma Surround(open: bytes, r: bytes, c: bytes, k: bytes, tail: bytes, close: bytes)
    ensures open + (r + c + k + tail) + close == open + r + (c + (k + (tail + close)))
  {
  }
}
