/** What the plugin reads out of a raw frame: the envelope's type and, for a scene switch, three payload fields. */
module EnvelopeMeta {
  import opened Wire
  import opened MsgPack
  import opened JsonText
  import opened Options
  import opened MsgPackReader
  import opened MsgPackWriter

  const TYPE: bytes := Ascii("type")
  const PAYLOAD: bytes := Ascii("payload")
  const SWITCH_SCENE: bytes := Ascii("switch_scene")
  const REQUEST_ID: bytes := Ascii("request_id")
  const SCENE_NAME: bytes := Ascii("scene_name")
  const REASON: bytes := Ascii("reason")
  const HELLO: bytes := Ascii("hello")
  const SET_SETTING: bytes := Ascii("set_setting_request")
  const RESULT: bytes := Ascii("scene_switch_result")

  datatype Meta = Meta(kind: bytes, requestId: bytes, sceneName: bytes, reason: bytes)

  /** The value of the last field called `key`. */
  function LastValue(kvs: seq<Value>, key: bytes): Option<Value> {
    if |kvs| < 2 then None
    else if kvs[|kvs| - 2] == Str(key) then Some(kvs[|kvs| - 1])
    else LastValue(kvs[..|kvs| - 2], key)
  }

  /** Fields the envelope loop gets through: string keys, and a string wherever the key is `type`. */
  predicate Plausible(kvs: seq<Value>) {
    if |kvs| < 2 then kvs == []
    else kvs[0].Str? && (kvs[0].s == TYPE ==> kvs[1].Str?) && Plausible(kvs[2..])
  }

  function KindOf(kvs: seq<Value>): bytes {
    match LastValue(kvs, TYPE)
    case Some(Str(s)) => s
    case _ => []
  }

  /** The payload loop: it stops at the first key that is not a string, and at the first of the three fields
      whose value is not a string, keeping what it has read so far. */
  function ScanPayload(kvs: seq<Value>, meta: Meta): Meta {
    if |kvs| < 2 || !kvs[0].Str? then meta
    else if kvs[0].s == REQUEST_ID then
      if kvs[1].Str? then ScanPayload(kvs[2..], meta.(requestId := kvs[1].s)) else meta
    else if kvs[0].s == SCENE_NAME then
      if kvs[1].Str? then ScanPayload(kvs[2..], meta.(sceneName := kvs[1].s)) else meta
    else if kvs[0].s == REASON then
      if kvs[1].Str? then ScanPayload(kvs[2..], meta.(reason := kvs[1].s)) else meta
    else ScanPayload(kvs[2..], meta)
  }

  /** The frame's fields, when the envelope loop gets through all of them. */
  function FieldsOf(frame: bytes): Option<seq<Value>> {
    match MapHeaderAt(frame, 0)
    case Reject => None
    case Accept(n, p) =>
      match ParseMany(frame, p, 2 * n)
      case Reject => None
      case Accept(kvs, _) => if Plausible(kvs) then Some(kvs) else None
  }

  /** What a frame announces; `None` when the plugin drops it. */
  function MetaOf(frame: bytes): Option<Meta> {
    match FieldsOf(frame)
    case None => None
    case Some(kvs) =>
      var meta := Meta(KindOf(kvs), [], [], []);
      if meta.kind != SWITCH_SCENE || LastValue(kvs, PAYLOAD).None? then
        if meta.kind == [] then None else Some(meta)
      else
        match LastValue(kvs, PAYLOAD).value
        case MapOf(fields) => Some(ScanPayload(fields, meta))
        case _ => Some(meta)
  }

  // ----- The loops -----

  /** `n` fields as the envelope loop reads them. */
  function EnvelopeFields(buf: bytes, pos: nat, n: nat): Parsed<seq<Value>>
    decreases n
  {
    if n == 0 then Accept([], pos)
    else if StrAt(buf, pos).Reject? then Reject
    else
      match Parse(buf, StrAt(buf, pos).next)
      case Reject => Reject
      case Accept(v, q) =>
        if StrAt(buf, pos).value == TYPE && !v.Str? then Reject
        else After([Str(StrAt(buf, pos).value), v], EnvelopeFields(buf, q, n - 1))
  }

  lemma EnvelopeStep(buf: bytes, kvs: seq<Value>, pos: nat, n: nat)
    requires n > 0
    ensures StrAt(buf, pos).Reject? ==> After(kvs, EnvelopeFields(buf, pos, n)).Reject?
    ensures StrAt(buf, pos).Accept? ==>
      var v := Parse(buf, StrAt(buf, pos).next);
      if v.Accept? && !(StrAt(buf, pos).value == TYPE && !v.value.Str?)
      then After(kvs, EnvelopeFields(buf, pos, n)) ==
        After(kvs + [Str(StrAt(buf, pos).value), v.value], EnvelopeFields(buf, v.next, n - 1))
      else After(kvs, EnvelopeFields(buf, pos, n)).Reject?
  {
    if After(kvs, EnvelopeFields(buf, pos, n)).Accept? {
      var v := Parse(buf, StrAt(buf, pos).next);
      var rest := EnvelopeFields(buf, v.next, n - 1).value;
      var two := [Str(StrAt(buf, pos).value), v.value];
      assert kvs + (two + rest) == kvs + two + rest;
    }
  }

  lemma PlausibleFront(k: Value, v: Value, kvs: seq<Value>)
    ensures Plausible([k, v] + kvs) <==> k.Str? && (k.s == TYPE ==> v.Str?) && Plausible(kvs)
  {
    assert ([k, v] + kvs)[2..] == kvs;
  }

  lemma EnvelopeMore(buf: bytes, pos: nat, n: nat, k: Value, p: nat, v: Value, q: nat)
    requires n > 0 && Parse(buf, pos) == Accept(k, p) && Parse(buf, p) == Accept(v, q)
    ensures EnvelopeFields(buf, pos, n) ==
      if k.Str? && (k.s == TYPE ==> v.Str?) then After([k, v], EnvelopeFields(buf, q, n - 1)) else Reject
  {
    StringsParse(buf, pos);
  }

  function Checked(all: Parsed<seq<Value>>): Parsed<seq<Value>> {
    if all.Accept? && Plausible(all.value) then all else Reject
  }

  /** Two more values, read by the parser and by the loop. */
  lemma CheckedFront(k: Value, v: Value, rest: Parsed<seq<Value>>, all: Parsed<seq<Value>>, fields: Parsed<seq<Value>>)
    requires all == After([k, v], rest)
    requires fields == if k.Str? && (k.s == TYPE ==> v.Str?) then After([k, v], Checked(rest)) else Reject
    ensures fields == Checked(all)
  {
    if rest.Accept? { PlausibleFront(k, v, rest.value); }
  }

  lemma {:induction false} EnvelopeFieldsAreParsed(buf: bytes, pos: nat, n: nat)
    ensures EnvelopeFields(buf, pos, n) == Checked(ParseMany(buf, pos, 2 * n))
    decreases n
  {
    if n > 0 {
      var first := Parse(buf, pos);
      if first.Reject? || Parse(buf, first.next).Reject? {
        OneRejected(buf, pos, 2 * n);
        StringsParse(buf, pos);
      } else {
        EnvelopeFieldsAreParsed(buf, Parse(buf, first.next).next, n - 1);
        OneEnvelopeFieldMore(buf, pos, n);
      }
    }
  }

  lemma OneEnvelopeFieldMore(buf: bytes, pos: nat, n: nat)
    requires n > 0 && Parse(buf, pos).Accept? && Parse(buf, Parse(buf, pos).next).Accept?
    requires var q := Parse(buf, Parse(buf, pos).next).next;
      EnvelopeFields(buf, q, n - 1) == Checked(ParseMany(buf, q, 2 * (n - 1)))
    ensures EnvelopeFields(buf, pos, n) == Checked(ParseMany(buf, pos, 2 * n))
  {
    var Accept(k, p) := Parse(buf, pos);
    var Accept(v, q) := Parse(buf, p);
    var rest := ParseMany(buf, q, 2 * (n - 1));
    TwoAccepted(buf, pos, 2 * n, k, p, v, q);
    EnvelopeMore(buf, pos, n, k, p, v, q);
    CheckedFront(k, v, rest, ParseMany(buf, pos, 2 * n), EnvelopeFields(buf, pos, n));
  }

  lemma LastValueSnoc(kvs: seq<Value>, k: Value, v: Value, key: bytes)
    ensures LastValue(kvs + [k, v], key) == if k == Str(key) then Some(v) else LastValue(kvs, key)
  {
    assert (kvs + [k, v])[..|kvs|] == kvs;
  }

  /** The captured payload is exactly the bytes of the payload value. */
  ghost predicate Captures(payload: bytes, value: Option<Value>) {
    match value
    case None => payload == []
    case Some(v) => Parse(payload, 0) == Accept(v, |payload|)
  }

  method ReadEnvelope(frame: bytes) returns (ok: bool, kind: bytes, payload: bytes)
    ensures ok <==> FieldsOf(frame).Some?
    ensures ok ==> kind == KindOf(FieldsOf(frame).value)
    ensures ok ==> Captures(payload, LastValue(FieldsOf(frame).value, PAYLOAD))
  {
    kind, payload := [], [];
    var r := new MpReader(frame);
    var n;
    ok, n := r.ReadMapHeader();
    if ok {
      ok, kind, payload := ReadEnvelopeFields(r, n);
    }
  }

  /** One pass of the envelope loop. */
  method ReadEnvelopeField(r: MpReader, kind: bytes, payload: bytes) returns (ok: bool, kind': bytes, payload': bytes)
    requires r.Valid()
    modifies r
    ensures r.Valid()
    ensures var key := StrAt(r.buf, old(r.pos));
      ok <==>
        && key.Accept? && Parse(r.buf, key.next).Accept?
        && (key.value == TYPE ==> Parse(r.buf, key.next).value.Str?)
    ensures ok ==>
      var key := StrAt(r.buf, old(r.pos)).value;
      var value := Parse(r.buf, StrAt(r.buf, old(r.pos)).next);
      && r.pos == value.next
      && kind' == (if key == TYPE then value.value.s else kind)
      && (if key == PAYLOAD then Captures(payload', Some(value.value)) else payload' == payload)
  {
    kind', payload' := kind, payload;
    var key;
    ok, key := r.ReadString();
    if !ok {
      return;
    }
    var start := r.pos;
    StringsParse(r.buf, start);
    if key == TYPE {
      ok, kind' := r.ReadString();
    } else {
      ok := r.Skip();
      if ok && key == PAYLOAD {
        payload' := r.buf[start..r.pos];
        ParseSlice(r.buf, start);
      }
    }
  }

  method ReadEnvelopeFields(r: MpReader, n: nat) returns (ok: bool, kind: bytes, payload: bytes)
    requires r.Valid()
    modifies r
    ensures var p := ParseMany(r.buf, old(r.pos), 2 * n);
      && (ok <==> p.Accept? && Plausible(p.value))
      && (ok ==> kind == KindOf(p.value) && Captures(payload, LastValue(p.value, PAYLOAD)))
  {
    var frame := r.buf;
    kind, payload := [], [];
    ghost var kvs: seq<Value> := [];
    ghost var all := EnvelopeFields(frame, r.pos, n);
    EnvelopeFieldsAreParsed(frame, r.pos, n);
    AfterNothing(all);
    for i := 0 to n
      invariant r.Valid()
      invariant all == After(kvs, EnvelopeFields(frame, r.pos, n - i))
      invariant kind == KindOf(kvs)
      invariant Captures(payload, LastValue(kvs, PAYLOAD))
    {
      EnvelopeStep(frame, kvs, r.pos, n - i);
      ghost var key := StrAt(frame, r.pos);
      ghost var value := if key.Accept? then Parse(frame, key.next) else Reject;
      ok, kind, payload := ReadEnvelopeField(r, kind, payload);
      if !ok {
        return;
      }
      LastValueSnoc(kvs, Str(key.value), value.value, TYPE);
      LastValueSnoc(kvs, Str(key.value), value.value, PAYLOAD);
      kvs := kvs + [Str(key.value), value.value];
    }
    assert kvs + [] == kvs;
    ok := true;
  }

  method ReadSwitchScene(payload: bytes, kind: bytes) returns (meta: Meta)
    requires Parse(payload, 0).Accept?
    ensures meta == match Parse(payload, 0).value
                    case MapOf(fields) => ScanPayload(fields, Meta(kind, [], [], []))
                    case _ => Meta(kind, [], [], [])
  {
    meta := Meta(kind, [], [], []);
    var r := new MpReader(payload);
    var ok, n := r.ReadMapHeader();
    if !ok {
      return;
    }
    ghost var rest := Parse(payload, 0).value.kvs;
    ghost var end := Parse(payload, 0).next;
    for i := 0 to n
      invariant r.Valid() && r.buf == payload && |rest| == 2 * (n - i)
      invariant ParseMany(payload, r.pos, |rest|) == Accept(rest, end)
      invariant ScanPayload(Parse(payload, 0).value.kvs, Meta(kind, [], [], [])) == ScanPayload(rest, meta)
    {
      NextField(payload, r.pos, rest, end);
      ghost var behind := Parse(payload, Parse(payload, r.pos).next).next;
      assert |rest[2..]| == |rest| - 2;
      var key;
      ok, key := r.ReadString();
      if !ok {
        return;
      }
      if key == REQUEST_ID || key == SCENE_NAME || key == REASON {
        var text;
        ok, text := r.ReadString();
        if !ok {
          return;
        }
        if key == REQUEST_ID {
          meta := meta.(requestId := text);
        } else if key == SCENE_NAME {
          meta := meta.(sceneName := text);
        } else {
          meta := meta.(reason := text);
        }
      } else {
        ok := r.Skip();
        if !ok {
          return;
        }
      }
      rest := rest[2..];
    }
  }

  lemma NextField(buf: bytes, pos: nat, kvs: seq<Value>, end: nat)
    requires |kvs| >= 2 && ParseMany(buf, pos, |kvs|) == Accept(kvs, end)
    ensures StrAt(buf, pos).Accept? <==> kvs[0].Str?
    ensures StrAt(buf, pos).Accept? ==>
      var p := StrAt(buf, pos).next;
      && StrAt(buf, pos).value == kvs[0].s
      && Parse(buf, p).Accept? && Parse(buf, p).value == kvs[1]
      && (StrAt(buf, p).Accept? <==> kvs[1].Str?)
      && (StrAt(buf, p).Accept? ==> StrAt(buf, p).value == kvs[1].s && StrAt(buf, p).next == Parse(buf, p).next)
      && ParseMany(buf, Parse(buf, p).next, |kvs| - 2) == Accept(kvs[2..], end)
  {
    StringsParse(buf, pos);
    var p := Parse(buf, pos).next;
    StringsParse(buf, p);
    var rest := ParseMany(buf, p, |kvs| - 1);
    assert rest.value == kvs[1..];
    assert kvs[1..][1..] == kvs[2..];
  }

  // ----- What a frame says, by its fields -----

  /** The fields behind the frame's map header. */
  function AllFields(frame: bytes): Option<seq<Value>> {
    match MapHeaderAt(frame, 0)
    case Reject => None
    case Accept(n, p) =>
      match ParseMany(frame, p, 2 * n)
      case Reject => None
      case Accept(kvs, _) => Some(kvs)
  }

  /** Every key is a string, and so is every type. */
  predicate Readable(kvs: seq<Value>) {
    |kvs| % 2 == 0 && forall i | 0 <= i < |kvs| && i % 2 == 0 ::
      kvs[i].Str? && (kvs[i].s == Ascii("type") ==> kvs[i + 1].Str?)
  }

  /** The last field called `key` stands at `i`. */
  predicate IsLast(kvs: seq<Value>, key: bytes, i: nat) {
    && i % 2 == 0 && i + 1 < |kvs| && kvs[i] == Str(key)
    && forall j | i < j < |kvs| && j % 2 == 0 :: kvs[j] != Str(key)
  }

  lemma {:induction false} PlausibleIsReadable(kvs: seq<Value>)
    requires |kvs| % 2 == 0
    ensures Plausible(kvs) <==> Readable(kvs)
  {
    if kvs != [] {
      var rest := kvs[2..];
      PlausibleIsReadable(rest);
      assert forall i | 0 <= i < |rest| :: rest[i] == kvs[i + 2];
      assert forall i | 2 <= i < |kvs| :: kvs[i] == rest[i - 2];
    }
  }

  lemma {:induction false} LastValueIsLast(kvs: seq<Value>, key: bytes) returns (i: nat)
    requires |kvs| % 2 == 0
    ensures LastValue(kvs, key).Some? ==> IsLast(kvs, key, i) && kvs[i + 1] == LastValue(kvs, key).value
    ensures LastValue(kvs, key).None? ==> forall j :: !IsLast(kvs, key, j)
  {
    i := 0;
    if kvs != [] {
      var n := |kvs| - 2;
      var front := kvs[..n];
      i := LastValueIsLast(front, key);
      if kvs[n] == Str(key) {
        i := n;
      } else {
        forall j ensures IsLast(kvs, key, j) <==> IsLast(front, key, j) {
          assert forall k | 0 <= k < n :: front[k] == kvs[k];
        }
      }
    }
  }

  lemma OneLast(kvs: seq<Value>, key: bytes, i: nat, j: nat)
    requires IsLast(kvs, key, i) && IsLast(kvs, key, j)
    ensures i == j
  {
  }

  /** The type is the last one's. */
  ghost predicate Announces(kvs: seq<Value>, kind: bytes) {
    exists i :: IsLast(kvs, Ascii("type"), i) && kvs[i + 1] == Str(kind)
  }

  ghost predicate HasPayloadMap(kvs: seq<Value>) {
    exists i :: IsLast(kvs, Ascii("payload"), i) && kvs[i + 1].MapOf?
  }

  lemma KindIsAnnounced(kvs: seq<Value>)
    requires Readable(kvs)
    ensures forall kind | kind != [] :: Announces(kvs, kind) <==> KindOf(kvs) == kind
    ensures HasPayloadMap(kvs) <==> LastValue(kvs, PAYLOAD).Some? && LastValue(kvs, PAYLOAD).value.MapOf?
  {
    var i := LastValueIsLast(kvs, TYPE);
    forall kind, j | IsLast(kvs, TYPE, j) && kvs[j + 1] == Str(kind) ensures KindOf(kvs) == kind { OneLast(kvs, TYPE, i, j); }
    var p := LastValueIsLast(kvs, PAYLOAD);
    forall j | IsLast(kvs, PAYLOAD, j) ensures p == j { OneLast(kvs, PAYLOAD, p, j); }
  }

  lemma {:induction false} ScanKeepsKind(kvs: seq<Value>, meta: Meta)
    ensures ScanPayload(kvs, meta).kind == meta.kind
    decreases |kvs|
  {
    if |kvs| >= 2 && kvs[0].Str? {
      var next := ScanField(kvs[0].s, kvs[1], meta);
      ScanKeepsKind(kvs[2..], next);
    }
  }

  /** A frame is dropped if and only if its fields cannot be read or its last type is missing or empty. */
  lemma DroppedExactly(frame: bytes)
    ensures MetaOf(frame).Some? <==>
      var kvs := AllFields(frame);
      kvs.Some? && Readable(kvs.value) && exists kind :: kind != [] && Announces(kvs.value, kind)
    ensures MetaOf(frame).Some? ==>
      var kvs, meta := AllFields(frame).value, MetaOf(frame).value;
      && meta.kind != [] && Announces(kvs, meta.kind)
      && (meta.kind != Ascii("switch_scene") || !HasPayloadMap(kvs) ==> meta == Meta(meta.kind, [], [], []))
      && (meta.kind == Ascii("switch_scene") && HasPayloadMap(kvs) ==>
          exists i :: IsLast(kvs, Ascii("payload"), i) && kvs[i + 1].MapOf?
                      && meta == ScanPayload(kvs[i + 1].kvs, Meta(meta.kind, [], [], [])))
  {
    var kvs := AllFields(frame);
    if kvs.Some? {
      PlausibleIsReadable(kvs.value);
      if Readable(kvs.value) {
        KindIsAnnounced(kvs.value);
        var kind, payload := KindOf(kvs.value), LastValue(kvs.value, PAYLOAD);
        if kind != [] { assert Announces(kvs.value, kind); }
        var i := LastValueIsLast(kvs.value, PAYLOAD);
        if HasPayloadMap(kvs.value) { ScanKeepsKind(payload.value.kvs, Meta(kind, [], [], [])); }
      }
    }
  }

  /** What it yields, by the fields of the frame: a scene switch with a map for its payload yields what the scan of that
      map does, anything else the type alone. */
  method EnvelopeTypeAndSwitchSceneMeta(frame: bytes) returns (ok: bool, meta: Meta)
    ensures ok <==>
      var kvs := AllFields(frame);
      kvs.Some? && Readable(kvs.value) && exists kind :: kind != [] && Announces(kvs.value, kind)
    ensures ok ==> Announces(AllFields(frame).value, meta.kind)
    ensures ok && (meta.kind != Ascii("switch_scene") || !HasPayloadMap(AllFields(frame).value)) ==>
      meta == Meta(meta.kind, [], [], [])
    ensures ok && meta.kind == Ascii("switch_scene") && HasPayloadMap(AllFields(frame).value) ==>
      var kvs := AllFields(frame).value;
      exists i :: IsLast(kvs, Ascii("payload"), i) && kvs[i + 1].MapOf?
                  && meta == ScanPayload(kvs[i + 1].kvs, Meta(meta.kind, [], [], []))
    ensures ok <==> MetaOf(frame).Some?
    ensures ok ==> meta == MetaOf(frame).value
  {
    DroppedExactly(frame);
    var kind, payload;
    ok, kind, payload := ReadEnvelope(frame);
    meta := Meta(kind, [], [], []);
    if !ok {
      return;
    }
    if kind != SWITCH_SCENE || payload == [] {
      ok := kind != [];
      return;
    }
    meta := ReadSwitchScene(payload, kind);
  }

  /** The JSON text of a frame: only when one string-keyed value fills it exactly. */
  method TryBuildIncomingEnvelopeJsonFromFrame(frame: bytes) returns (ok: bool, json: bytes)
    ensures ok <==> Parse(frame, 0).Accept? && StringKeyed(Parse(frame, 0).value) && Parse(frame, 0).next == |frame|
    ensures ok ==> json == Render(Parse(frame, 0).value)
  {
    var r := new MpReader(frame);
    ok, json := r.ToJson();
    if !ok {
      return false, [];
    }
    if r.pos != |frame| {
      return false, [];
    }
  }

  /** Run on the same bytes, the translator and the skipper agree: whatever the translator accepts the skipper
      accepts too, ending at the same place; the skipper accepts more only when some map key is not a string. */
  method ParsersAgree(buf: bytes, start: nat) returns (jsonOk: bool, jsonEnd: nat, skipOk: bool, skipEnd: nat)
    requires start <= |buf|
    ensures jsonOk ==> skipOk && skipEnd == jsonEnd
    ensures skipOk ==> Parse(buf, start).Accept? && start < skipEnd <= |buf|
    ensures skipOk ==> Parse(buf[start..skipEnd], 0) == Accept(Parse(buf, start).value, skipEnd - start)
    ensures skipOk && !jsonOk ==> !StringKeyed(Parse(buf, start).value)
  {
    var r := new MpReader(buf);
    var s := new MpReader(buf);
    r.pos, s.pos := start, start;
    var json;
    jsonOk, json := r.ToJson();
    jsonEnd := r.pos;
    skipOk := s.Skip();
    skipEnd := s.pos;
    if skipOk { ParseSlice(buf, start); }
  }

  // ----- Laws -----

  lemma {:induction false} LastValueFinds(kvs: seq<Value>, key: bytes, v: Value)
    requires DistinctKeys(kvs) && HasField(kvs, key, v)
    ensures LastValue(kvs, key) == Some(v)
  {
    var n := |kvs| - 2;
    var i :| 0 <= i < |kvs| - 1 && i % 2 == 0 && kvs[i] == Str(key) && kvs[i + 1] == v;
    if i < n {
      assert kvs[..n][i] == Str(key) && kvs[..n][i + 1] == v;
      LastValueFinds(kvs[..n], key, v);
    }
  }

  /** String keys, and strings in the three fields the scan reads. */
  predicate PlausiblePayload(kvs: seq<Value>) {
    var n := |kvs| - 2;
    if n < 0 then kvs == [] else PlausiblePayload(kvs[..n]) && PlausibleField(kvs[n], kvs[n + 1])
  }

  predicate PlausibleField(k: Value, v: Value) {
    k.Str? && (k.s in {REQUEST_ID, SCENE_NAME, REASON} ==> v.Str?)
  }

  function TextOr(v: Option<Value>, default: bytes): bytes {
    match v
    case Some(Str(s)) => s
    case _ => default
  }

  /** The effect of one plausible field. */
  function ScanField(k: bytes, v: Value, meta: Meta): Meta {
    if !v.Str? then meta
    else if k == REQUEST_ID then meta.(requestId := v.s)
    else if k == SCENE_NAME then meta.(sceneName := v.s)
    else if k == REASON then meta.(reason := v.s)
    else meta
  }

  lemma {:induction false} PlausibleFirst(kvs: seq<Value>)
    requires PlausiblePayload(kvs) && kvs != []
    ensures |kvs| >= 2 && PlausibleField(kvs[0], kvs[1]) && PlausiblePayload(kvs[2..])
  {
    var n := |kvs| - 2;
    if n > 0 {
      PlausibleFirst(kvs[..n]);
      assert kvs[2..][..n - 2] == kvs[..n][2..];
    }
  }

  lemma {:induction false} ScanPayloadSnoc(kvs: seq<Value>, k: Value, v: Value, meta: Meta)
    requires PlausiblePayload(kvs) && PlausibleField(k, v)
    ensures ScanPayload(kvs + [k, v], meta) == ScanField(k.s, v, ScanPayload(kvs, meta))
  {
    var all := kvs + [k, v];
    if kvs == [] {
      assert all == [k, v];
    } else {
      PlausibleFirst(kvs);
      assert all[2..] == kvs[2..] + [k, v];
      ScanPayloadSnoc(kvs[2..], k, v, ScanField(kvs[0].s, kvs[1], meta));
    }
  }

  /** On a well-formed payload the scan returns the last value of each of the three fields. */
  lemma {:induction false} ScanPayloadReturnsLast(kvs: seq<Value>, meta: Meta)
    requires PlausiblePayload(kvs)
    ensures ScanPayload(kvs, meta) == Meta(meta.kind, TextOr(LastValue(kvs, Ascii("request_id")), meta.requestId),
      TextOr(LastValue(kvs, Ascii("scene_name")), meta.sceneName), TextOr(LastValue(kvs, Ascii("reason")), meta.reason))
  {
    if kvs != [] {
      var n := |kvs| - 2;
      var before, k, v := kvs[..n], kvs[n], kvs[n + 1];
      assert kvs == before + [k, v];
      ScanPayloadReturnsLast(before, meta);
      ScanPayloadSnoc(before, k, v, meta);
      assert |REQUEST_ID| == |SCENE_NAME| == 10 && |REASON| == 6 && REQUEST_ID[0] != SCENE_NAME[0];
    }
  }

  /** The first field that is no plausible one ends the scan, whatever follows: a key that is no string, or one of the
      three fields with another value. */
  lemma ScanStops(kvs: seq<Value>, k: Value, v: Value, rest: seq<Value>, meta: Meta)
    requires PlausiblePayload(kvs)
    requires !k.Str? || (!v.Str? && (k.s == Ascii("request_id") || k.s == Ascii("scene_name") || k.s == Ascii("reason")))
    ensures ScanPayload(kvs + ([k, v] + rest), meta) == ScanPayload(kvs, meta)
  {
    StopsHere(k, v, rest, ScanPayload(kvs, meta));
    ScanOver(kvs, [k, v] + rest, meta);
  }

  lemma StopsHere(k: Value, v: Value, rest: seq<Value>, meta: Meta)
    requires !PlausibleField(k, v)
    ensures ScanPayload([k, v] + rest, meta) == meta
  {
  }

  lemma {:induction false} ScanOver(kvs: seq<Value>, rest: seq<Value>, meta: Meta)
    requires PlausiblePayload(kvs)
    ensures ScanPayload(kvs + rest, meta) == ScanPayload(rest, ScanPayload(kvs, meta))
    decreases |kvs|
  {
    if kvs == [] {
      assert kvs + rest == rest;
    } else {
      PlausibleFirst(kvs);
      assert (kvs + rest)[2..] == kvs[2..] + rest;
      ScanOver(kvs[2..], rest, ScanField(kvs[0].s, kvs[1], meta));
    }
  }

  lemma {:induction false} DistinctIsPlausible(kvs: seq<Value>, r: bytes, s: bytes, q: bytes, all: seq<Value>)
    requires DistinctKeys(all) && kvs <= all && |kvs| % 2 == 0
    requires HasField(all, REQUEST_ID, Str(r)) && HasField(all, SCENE_NAME, Str(s)) && HasField(all, REASON, Str(q))
    ensures PlausiblePayload(kvs)
  {
    var n := |kvs| - 2;
    if n >= 0 {
      DistinctIsPlausible(kvs[..n], r, s, q, all);
      assert all[n] == kvs[n] && all[n + 1] == kvs[n + 1];
      OneOf(all, REQUEST_ID, Str(r), n);
      OneOf(all, SCENE_NAME, Str(s), n);
      OneOf(all, REASON, Str(q), n);
    }
  }

  lemma {:induction false} DistinctIsEnvelope(all: seq<Value>, i: nat, kind: bytes)
    requires DistinctKeys(all) && i <= |all| && i % 2 == 0
    requires HasField(all, TYPE, Str(kind))
    ensures Plausible(all[i..])
    decreases |all| - i
  {
    if i < |all| {
      DistinctIsEnvelope(all, i + 2, kind);
      OneOf(all, TYPE, Str(kind), i);
    }
  }

  /** A scene switch is recovered from its frame whatever the order of the envelope's and the payload's fields,
      whatever other fields there are, and whatever bytes follow. */
  lemma SwitchSceneIsRecovered(fields: seq<Value>, payload: seq<Value>, r: bytes, s: bytes, q: bytes, rest: bytes)
    requires Writable(MapOf(fields)) && DistinctKeys(fields) && DistinctKeys(payload)
    requires HasField(fields, Ascii("type"), Str(Ascii("switch_scene"))) && HasField(fields, Ascii("payload"), MapOf(payload))
    requires HasField(payload, Ascii("request_id"), Str(r)) && HasField(payload, Ascii("scene_name"), Str(s))
    requires HasField(payload, Ascii("reason"), Str(q))
    ensures MetaOf(Enc(MapOf(fields)) + rest) == Some(Meta(Ascii("switch_scene"), r, s, q))
  {
    var frame := Enc(MapOf(fields)) + rest;
    DistinctIsEnvelope(fields, 0, SWITCH_SCENE);
    assert FieldsOf(frame) == Some(fields) by { EnvelopeFieldsReadBack(fields, rest); }
    assert KindOf(fields) == SWITCH_SCENE by { LastValueFinds(fields, TYPE, Str(SWITCH_SCENE)); }
    assert LastValue(fields, PAYLOAD) == Some(MapOf(payload)) by { LastValueFinds(fields, PAYLOAD, MapOf(payload)); }
    assert ScanPayload(payload, Meta(SWITCH_SCENE, [], [], [])) == Meta(SWITCH_SCENE, r, s, q) by {
      PayloadIsScanned(payload, r, s, q);
    }
    AnnouncesSwitch(frame, fields, payload);
  }

  /** Any other type is recovered as well, with nothing else. */
  lemma TypeIsRecovered(fields: seq<Value>, kind: bytes, rest: bytes)
    requires Writable(MapOf(fields)) && DistinctKeys(fields)
    requires HasField(fields, Ascii("type"), Str(kind)) && kind != [] && kind != Ascii("switch_scene")
    ensures MetaOf(Enc(MapOf(fields)) + rest) == Some(Meta(kind, [], [], []))
  {
    DistinctIsEnvelope(fields, 0, kind);
    EnvelopeFieldsReadBack(fields, rest);
    LastValueFinds(fields, TYPE, Str(kind));
  }

  /** So is a scene switch whose payload is missing or no map. */
  lemma BareSwitchIsRecovered(fields: seq<Value>, rest: bytes)
    requires Writable(MapOf(fields)) && DistinctKeys(fields)
    requires HasField(fields, Ascii("type"), Str(Ascii("switch_scene")))
    requires forall v | HasField(fields, Ascii("payload"), v) :: !v.MapOf?
    ensures MetaOf(Enc(MapOf(fields)) + rest) == Some(Meta(Ascii("switch_scene"), [], [], []))
  {
    DistinctIsEnvelope(fields, 0, SWITCH_SCENE);
    EnvelopeFieldsReadBack(fields, rest);
    LastValueFinds(fields, TYPE, Str(SWITCH_SCENE));
    var i := LastValueIsLast(fields, PAYLOAD);
    if LastValue(fields, PAYLOAD).Some? { assert HasField(fields, PAYLOAD, fields[i + 1]); }
  }

  /** The frame is one map of distinct fields, among them this type. */
  ghost predicate IsOfType(frame: bytes, kind: bytes) {
    && Parse(frame, 0).Accept? && Parse(frame, 0).value.MapOf?
    && DistinctKeys(Parse(frame, 0).value.kvs) && HasField(Parse(frame, 0).value.kvs, TYPE, Str(kind))
  }

  lemma OfTypeIsRecovered(frame: bytes, kind: bytes)
    requires IsOfType(frame, kind) && kind != [] && kind != SWITCH_SCENE
    ensures MetaOf(frame) == Some(Meta(kind, [], [], []))
  {
    var fields := Parse(frame, 0).value.kvs;
    assert fields[0..] == fields;
    DistinctIsEnvelope(fields, 0, kind);
    MapsParse(frame, 0);
    LastValueFinds(fields, TYPE, Str(kind));
  }

  /** What a frame carries is what it announces. */
  lemma CarriedTypeIsAnnounced(frame: bytes, id: bytes, ts: nat, kind: bytes)
    requires exists payload :: Carries(frame, id, ts, kind, payload)
    requires kind != [] && kind != Ascii("switch_scene")
    ensures MetaOf(frame) == Some(Meta(kind, [], [], []))
  {
    OfTypeIsRecovered(frame, kind);
  }

  /** The plugin's own frames, read by its own reader. */
  method AnnounceOwnFrames(id: bytes, ts: nat, key: bytes, value: bool, requestId: bytes, ok: bool, error: bytes)
    returns (hello: Meta, setting: Meta, result: Meta, read: bool)
    requires Fits([id, key, requestId, error], ts)
    ensures read && hello == Meta(Ascii("hello"), [], [], []) && setting == Meta(Ascii("set_setting_request"), [], [], [])
    ensures result == Meta(Ascii("scene_switch_result"), [], [], [])
  {
    assert id in [id, key, requestId, error] && key in [id, key, requestId, error];
    assert requestId in [id, key, requestId, error] && error in [id, key, requestId, error];
    var one, two, three;
    hello, one := AnnounceHello(id, ts);
    setting, two := AnnounceSetSetting(id, ts, key, value);
    result, three := AnnounceResult(id, ts, requestId, ok, error);
    read := one && two && three;
  }

  method AnnounceHello(id: bytes, ts: nat) returns (meta: Meta, read: bool)
    requires Fits([id], ts)
    ensures read && meta == Meta(Ascii("hello"), [], [], [])
  {
    var frame := BuildEnvelopeHello(id, ts);
    assert exists payload :: Carries(frame, id, ts, HELLO, payload);
    CarriedTypeIsAnnounced(frame, id, ts, HELLO);
    read, meta := EnvelopeTypeAndSwitchSceneMeta(frame);
  }

  method AnnounceSetSetting(id: bytes, ts: nat, key: bytes, value: bool) returns (meta: Meta, read: bool)
    requires Fits([id, key], ts)
    ensures read && meta == Meta(Ascii("set_setting_request"), [], [], [])
  {
    var frame := BuildEnvelopeSetSettingRequest(id, ts, key, value);
    assert exists payload :: Carries(frame, id, ts, SET_SETTING, payload);
    CarriedTypeIsAnnounced(frame, id, ts, SET_SETTING);
    read, meta := EnvelopeTypeAndSwitchSceneMeta(frame);
  }

  method AnnounceResult(id: bytes, ts: nat, requestId: bytes, ok: bool, error: bytes) returns (meta: Meta, read: bool)
    requires Fits([id, requestId, error], ts)
    ensures read && meta == Meta(Ascii("scene_switch_result"), [], [], [])
  {
    var frame := BuildEnvelopeSceneSwitchResult(id, ts, requestId, ok, error);
    assert exists payload :: Carries(frame, id, ts, RESULT, payload);
    CarriedTypeIsAnnounced(frame, id, ts, RESULT);
    read, meta := EnvelopeTypeAndSwitchSceneMeta(frame);
  }

  lemma AnnouncesSwitch(frame: bytes, fields: seq<Value>, payload: seq<Value>)
    requires FieldsOf(frame) == Some(fields) && KindOf(fields) == SWITCH_SCENE
    requires LastValue(fields, PAYLOAD) == Some(MapOf(payload))
    ensures MetaOf(frame) == Some(ScanPayload(payload, Meta(SWITCH_SCENE, [], [], [])))
  {
  }

  lemma PayloadIsScanned(payload: seq<Value>, r: bytes, s: bytes, q: bytes)
    requires DistinctKeys(payload)
    requires HasField(payload, REQUEST_ID, Str(r)) && HasField(payload, SCENE_NAME, Str(s)) && HasField(payload, REASON, Str(q))
    ensures ScanPayload(payload, Meta(SWITCH_SCENE, [], [], [])) == Meta(SWITCH_SCENE, r, s, q)
  {
    DistinctIsPlausible(payload, r, s, q, payload);
    LastValueFinds(payload, REQUEST_ID, Str(r));
    LastValueFinds(payload, SCENE_NAME, Str(s));
    LastValueFinds(payload, REASON, Str(q));
    ScanPayloadReturnsLast(payload, Meta(SWITCH_SCENE, [], [], []));
  }

  lemma EnvelopeFieldsReadBack(fields: seq<Value>, rest: bytes)
    requires Writable(MapOf(fields))
    ensures FieldsOf(Enc(MapOf(fields)) + rest) == if Plausible(fields) then Some(fields) else None
  {
    ParseEncThenAnything(MapOf(fields), rest);
    MapsParse(Enc(MapOf(fields)) + rest, 0);
  }

  lemma OneOf(kvs: seq<Value>, key: bytes, v: Value, j: nat)
    requires DistinctKeys(kvs) && HasField(kvs, key, v) && j < |kvs| && j % 2 == 0
    ensures kvs[j] == Str(key) ==> kvs[j + 1] == v
  {
    var i :| 0 <= i < |kvs| - 1 && i % 2 == 0 && kvs[i] == Str(key) && kvs[i + 1] == v;
    if i < j { assert kvs[i] != kvs[j]; } else if j < i { assert kvs[j] != kvs[i]; }
  }
}
