/** The plugin's writer: bytes pushed onto a growing vector, and the envelopes built with it. */
module MsgPackWriter {
  import opened Wire
  import opened MsgPack

  lemma EncManySnoc(vs: seq<Value>, v: Value)
    ensures EncMany(vs + [v]) == EncMany(vs) + Enc(v)
  {
    EncManyAppend(vs, [v]);
    assert EncMany([v]) == Enc(v) + EncMany([]);
  }

  class MpWriter {
    var out: bytes
    /** The container being filled: the bytes up to and including its header, and the values written since. */
    ghost var base: bytes
    ghost var values: seq<Value>

    ghost predicate Valid() reads this { out == base + EncMany(values) }

    constructor ()
      ensures Valid() && out == [] && base == [] && values == []
    {
      out, base, values := [], [], [];
    }

    /** `v` has been appended to the container being filled. */
    twostate predicate Appended(v: Value) reads this {
      Valid() && base == old(base) && values == old(values) + [v]
    }

    /** A key and its value have been appended. */
    twostate predicate FieldAppended(key: bytes, v: Value) reads this {
      Valid() && base == old(base) && values == old(values) + [Str(key), v]
    }

    /** `k` bytes, most significant first: shift down, keep the low byte. */
    method PushBigEndian(v: nat, k: nat)
      modifies this`out
      ensures out == old(out) + ToBE(v, k)
    {
      var i := k;
      while i > 0
        invariant 0 <= i <= k
        invariant out == old(out) + ToBE(Shr8(v, i), k - i)
      {
        i := i - 1;
        ToBEStep(v, i, k - 1 - i);
        out := out + [Shr8(v, i) % 256];
      }
    }

    lemma ToBEStep(v: nat, i: nat, done: nat)
      ensures ToBE(Shr8(v, i + 1), done) + [Shr8(v, i) % 256] == ToBE(Shr8(v, i), done + 1)
    {
    }

    method WriteString(s: bytes)
      requires Valid()
      modifies this
      ensures Appended(Str(s))
    {
      var len := |s|;
      if len <= 31 {
        out := out + [0xa0 + len];
      } else if len <= 0xff {
        out := out + [0xd9];
        PushBigEndian(len, 1);
      } else if len <= 0xffff {
        out := out + [0xda];
        PushBigEndian(len, 2);
      } else {
        out := out + [0xdb];
        PushBigEndian(len, 4);
      }
      assert out == old(out) + EncStrHeader(len);
      out := out + s;
      Reassociate(old(out), EncStrHeader(len), s);
      Note(Str(s), old(out));
    }

    method WriteBool(v: bool)
      requires Valid()
      modifies this
      ensures Appended(Bool(v))
    {
      out := out + [if v then 0xc3 else 0xc2];
      Note(Bool(v), old(out));
    }

    method WriteNil()
      requires Valid()
      modifies this
      ensures Appended(Nil)
    {
      out := out + [0xc0];
      Note(Nil, old(out));
    }

    method WriteUInt(v: nat)
      requires Valid()
      modifies this
      ensures Appended(UInt(v))
    {
      if v <= 0x7f {
        out := out + [v];
      } else if v <= 0xff {
        out := out + [0xcc];
        PushBigEndian(v, 1);
      } else if v <= 0xffff {
        out := out + [0xcd];
        PushBigEndian(v, 2);
      } else if v <= 0xffff_ffff {
        out := out + [0xce];
        PushBigEndian(v, 4);
      } else {
        out := out + [0xcf];
        PushBigEndian(v, 8);
      }
      assert out == old(out) + Enc(UInt(v));
      Note(UInt(v), old(out));
    }

    /** Opens an array: the values written next are its elements. */
    method WriteArrayHeader(count: nat)
      requires Valid()
      modifies this
      ensures Valid() && out == base == old(out) + EncArrayHeader(count) && values == []
    {
      if count <= 15 {
        out := out + [0x90 + count];
      } else {
        out := out + [0xdc];
        PushBigEndian(count, 2);
      }
      base, values := out, [];
    }

    /** Opens a map: the values written next are its keys and values. */
    method WriteMapHeader(count: nat)
      requires Valid()
      modifies this
      ensures Valid() && out == base == old(out) + EncMapHeader(count) && values == []
    {
      if count <= 15 {
        out := out + [0x80 + count];
      } else {
        out := out + [0xde];
        PushBigEndian(count, 2);
      }
      base, values := out, [];
    }

    method WriteStringField(key: bytes, s: bytes)
      requires Valid()
      modifies this
      ensures FieldAppended(key, Str(s))
    {
      WriteString(key);
      WriteString(s);
    }

    method WriteUIntField(key: bytes, v: nat)
      requires Valid()
      modifies this
      ensures FieldAppended(key, UInt(v))
    {
      WriteString(key);
      WriteUInt(v);
    }

    method WriteBoolField(key: bytes, v: bool)
      requires Valid()
      modifies this
      ensures FieldAppended(key, Bool(v))
    {
      WriteString(key);
      WriteBool(v);
    }

    ghost method Note(v: Value, before: bytes)
      requires before == base + EncMany(values) && out == before + Enc(v)
      modifies this`values
      ensures Valid() && values == old(values) + [v]
    {
      EncManySnoc(values, v);
      values := values + [v];
    }

    /** Closes the innermost container: it becomes one value of the container around it. */
    ghost method Close(container: Value, outerBase: bytes, outerValues: seq<Value>)
      requires Valid()
      requires match container
               case MapOf(kvs) => kvs == values && base == outerBase + EncMany(outerValues) + EncMapHeader(|kvs| / 2)
               case ArrayOf(items) => items == values && base == outerBase + EncMany(outerValues) + EncArrayHeader(|items|)
               case _ => false
      modifies this`base, this`values
      ensures Valid() && base == outerBase && values == outerValues + [container]
    {
      EncManySnoc(outerValues, container);
      ghost var header := base[|outerBase + EncMany(outerValues)|..];
      assert base == outerBase + EncMany(outerValues) + header && Enc(container) == header + EncMany(values);
      Regroup(outerBase, EncMany(outerValues), header, EncMany(values));
      base, values := outerBase, outerValues + [container];
    }

  }

  /** The envelope that every builder produces. */
  function Envelope(id: bytes, ts: nat, kind: bytes, priority: bytes, payload: seq<Value>): Value {
    MapOf(EnvelopeHead(id, ts, kind, priority) + [MapOf(payload)])
  }

  function EnvelopeHead(id: bytes, ts: nat, kind: bytes, priority: bytes): seq<Value> {
    [Str(Ascii("v")), UInt(1), Str(Ascii("id")), Str(id), Str(Ascii("ts_unix_ms")), UInt(ts),
     Str(Ascii("type")), Str(kind), Str(Ascii("priority")), Str(priority), Str(Ascii("payload"))]
  }

  /** The fields before the payload's own map, which is then open for its fields. */
  method WriteEnvelopeHead(w: MpWriter, id: bytes, ts: nat, kind: bytes, priority: bytes)
    requires w.Valid() && w.values == []
    modifies w
    ensures w.Valid() && w.base == old(w.base) && w.values == EnvelopeHead(id, ts, kind, priority)
  {
    w.WriteUIntField(Ascii("v"), 1);
    w.WriteStringField(Ascii("id"), id);
    w.WriteUIntField(Ascii("ts_unix_ms"), ts);
    w.WriteStringField(Ascii("type"), kind);
    w.WriteStringField(Ascii("priority"), priority);
    w.WriteString(Ascii("payload"));
  }

  method BeginEnvelope(id: bytes, ts: nat, kind: bytes, priority: bytes, fields: nat) returns (w: MpWriter)
    ensures fresh(w) && w.Valid() && w.values == []
    ensures w.base == EncMapHeader(6) + EncMany(EnvelopeHead(id, ts, kind, priority)) + EncMapHeader(fields)
  {
    w := new MpWriter();
    w.WriteMapHeader(6);
    WriteEnvelopeHead(w, id, ts, kind, priority);
    assert w.out == EncMapHeader(6) + EncMany(w.values);
    w.WriteMapHeader(fields);
  }

  /** Ends the payload and with it the envelope. */
  lemma EnvelopeComplete(w: MpWriter, id: bytes, ts: nat, kind: bytes, priority: bytes, payload: seq<Value>)
    requires w.Valid() && w.values == payload && |payload| % 2 == 0
    requires w.base == EncMapHeader(6) + EncMany(EnvelopeHead(id, ts, kind, priority)) + EncMapHeader(|payload| / 2)
    ensures w.out == Enc(Envelope(id, ts, kind, priority, payload))
  {
    EncManySnoc(EnvelopeHead(id, ts, kind, priority), MapOf(payload));
  }

  function Capabilities(): seq<Value> {
    [Str(Ascii("scene_switch")), Str(Ascii("dock")), Str(Ascii("restart_hint"))]
  }

  function HelloPayload(): seq<Value> {
    [Str(Ascii("plugin_version")), Str(Ascii("0.0.3-cpp-shim")), Str(Ascii("protocol_version")), UInt(1),
     Str(Ascii("obs_pid")), UInt(0), Str(Ascii("capabilities")), ArrayOf(Capabilities())]
  }

  // ----- What a reader finds in a frame -----

  /** Strings and numbers that the format can hold. */
  predicate Fits(texts: seq<bytes>, ts: nat) { ts < TWO_64 && forall s | s in texts :: |s| < TWO_32 }

  /** The frame is one map of six fields, and these are their values. */
  ghost predicate Carries(frame: bytes, id: bytes, ts: nat, kind: bytes, payload: seq<Value>) {
    Parse(frame, 0).Accept? && Parse(frame, 0).next == |frame| && Parse(frame, 0).value.MapOf?
    && var fields := Parse(frame, 0).value.kvs;
    && |fields| == 12 && DistinctKeys(fields)
    && HasField(fields, Ascii("v"), UInt(1))
    && HasField(fields, Ascii("id"), Str(id))
    && HasField(fields, Ascii("ts_unix_ms"), UInt(ts))
    && HasField(fields, Ascii("type"), Str(kind))
    && HasField(fields, Ascii("priority"), Str(Ascii("high")))
    && HasField(fields, Ascii("payload"), MapOf(payload))
  }

  /** The fields of these names and values, in order. */
  function Zip(keys: seq<bytes>, values: seq<Value>): seq<Value>
    requires |keys| == |values|
  {
    seq(2 * |keys|, i requires 0 <= i < 2 * |keys| => if i % 2 == 0 then Str(keys[i / 2]) else values[i / 2])
  }

  ghost predicate SizesDiffer(keys: seq<bytes>) { forall i, j | 0 <= i < j < |keys| :: |keys[i]| != |keys[j]| }

  lemma ZipKeys(keys: seq<bytes>, values: seq<Value>)
    requires |keys| == |values| && SizesDiffer(keys)
    ensures DistinctKeys(Zip(keys, values))
  {
    var fields := Zip(keys, values);
    forall i, j | 0 <= i < j < |fields| && i % 2 == 0 && j % 2 == 0 ensures fields[i] != fields[j] {
      assert i / 2 < j / 2 && |keys[i / 2]| != |keys[j / 2]|;
    }
  }

  lemma ZipHas(keys: seq<bytes>, values: seq<Value>, i: nat)
    requires |keys| == |values| && i < |keys|
    ensures HasField(Zip(keys, values), keys[i], values[i])
  {
    var fields := Zip(keys, values);
    assert fields[2 * i] == Str(keys[i]) && fields[2 * i + 1] == values[i];
  }

  lemma ZipIsWritable(keys: seq<bytes>, values: seq<Value>)
    requires |keys| == |values| < TWO_16 && forall i | 0 <= i < |keys| :: |keys[i]| < TWO_32 && Writable(values[i])
    ensures Writable(MapOf(Zip(keys, values)))
  {
  }

  const HEAD_KEYS: seq<bytes> :=
    [Ascii("v"), Ascii("id"), Ascii("ts_unix_ms"), Ascii("type"), Ascii("priority"), Ascii("payload")]

  lemma EnvelopeIsZip(id: bytes, ts: nat, kind: bytes, priority: bytes, payload: Value)
    ensures EnvelopeHead(id, ts, kind, priority) + [payload] ==
      Zip(HEAD_KEYS, [UInt(1), Str(id), UInt(ts), Str(kind), Str(priority), payload])
  {
    var keys, values := HEAD_KEYS, [UInt(1), Str(id), UInt(ts), Str(kind), Str(priority), payload];
    var fields := EnvelopeHead(id, ts, kind, priority) + [payload];
    assert forall i | 0 <= i < 6 :: fields[2 * i] == Str(keys[i]) && fields[2 * i + 1] == values[i];
    ZipByPairs(fields, keys, values);
  }

  lemma ZipByPairs(fields: seq<Value>, keys: seq<bytes>, values: seq<Value>)
    requires |fields| == 2 * |keys| && |keys| == |values|
    requires forall i | 0 <= i < |keys| :: fields[2 * i] == Str(keys[i]) && fields[2 * i + 1] == values[i]
    ensures fields == Zip(keys, values)
  {
    forall i | 0 <= i < |fields| ensures fields[i] == Zip(keys, values)[i] {
      assert i == 2 * (i / 2) + i % 2;
    }
  }

  lemma HeadKeys()
    ensures SizesDiffer(HEAD_KEYS) && forall i | 0 <= i < 6 :: |HEAD_KEYS[i]| < 12
  {
  }

  lemma EnvelopeCarries(id: bytes, ts: nat, kind: bytes, payload: seq<Value>)
    requires |id| < TWO_32 && |kind| < TWO_32 && ts < TWO_64 && Writable(MapOf(payload))
    ensures Carries(Enc(Envelope(id, ts, kind, Ascii("high"), payload)), id, ts, kind, payload)
  {
    var values := [UInt(1), Str(id), UInt(ts), Str(kind), Str(Ascii("high")), MapOf(payload)];
    HeadKeys();
    EnvelopeIsZip(id, ts, kind, Ascii("high"), MapOf(payload));
    ZipKeys(HEAD_KEYS, values);
    ZipIsWritable(HEAD_KEYS, values);
    ParseEnc(MapOf(Zip(HEAD_KEYS, values)));
    ZipHas(HEAD_KEYS, values, 0);
    ZipHas(HEAD_KEYS, values, 1);
    ZipHas(HEAD_KEYS, values, 2);
    ZipHas(HEAD_KEYS, values, 3);
    ZipHas(HEAD_KEYS, values, 4);
    ZipHas(HEAD_KEYS, values, 5);
  }

  // ----- The builders -----

  const HELLO_KEYS: seq<bytes> :=
    [Ascii("plugin_version"), Ascii("protocol_version"), Ascii("obs_pid"), Ascii("capabilities")]

  lemma HelloIsZip()
    ensures HelloPayload() ==
      Zip(HELLO_KEYS, [Str(Ascii("0.0.3-cpp-shim")), UInt(1), UInt(0), ArrayOf(Capabilities())])
    ensures SizesDiffer(HELLO_KEYS) && forall i | 0 <= i < 4 :: |HELLO_KEYS[i]| < 20
  {
  }

  ghost predicate IsHello(payload: seq<Value>) {
    && |payload| == 8 && DistinctKeys(payload)
    && HasField(payload, Ascii("plugin_version"), Str(Ascii("0.0.3-cpp-shim")))
    && HasField(payload, Ascii("protocol_version"), UInt(1)) && HasField(payload, Ascii("obs_pid"), UInt(0))
    && HasField(payload, Ascii("capabilities"),
         ArrayOf([Str(Ascii("scene_switch")), Str(Ascii("dock")), Str(Ascii("restart_hint"))]))
  }

  lemma HelloIsHello()
    ensures IsHello(HelloPayload()) && Writable(MapOf(HelloPayload()))
  {
    var values := [Str(Ascii("0.0.3-cpp-shim")), UInt(1), UInt(0), ArrayOf(Capabilities())];
    HelloIsZip();
    ZipKeys(HELLO_KEYS, values);
    ZipIsWritable(HELLO_KEYS, values);
    ZipHas(HELLO_KEYS, values, 0);
    ZipHas(HELLO_KEYS, values, 1);
    ZipHas(HELLO_KEYS, values, 2);
    ZipHas(HELLO_KEYS, values, 3);
  }

  lemma HelloCarries(id: bytes, ts: nat, payload: seq<Value>)
    requires Fits([id], ts) && IsHello(payload) && Writable(MapOf(payload))
    ensures var frame := Enc(Envelope(id, ts, Ascii("hello"), Ascii("high"), payload));
      exists p :: Carries(frame, id, ts, Ascii("hello"), p) && IsHello(p)
  {
    assert id in [id];
    EnvelopeCarries(id, ts, Ascii("hello"), payload);
  }

  lemma HelloFrame(id: bytes, ts: nat)
    ensures var frame := Enc(Envelope(id, ts, Ascii("hello"), Ascii("high"), HelloPayload()));
      Fits([id], ts) ==> exists payload :: Carries(frame, id, ts, Ascii("hello"), payload) && IsHello(payload)
  {
    HelloIsHello();
    if Fits([id], ts) { HelloCarries(id, ts, HelloPayload()); }
  }

  method BuildEnvelopeHello(id: bytes, ts: nat) returns (frame: bytes)
    ensures frame == Enc(Envelope(id, ts, Ascii("hello"), Ascii("high"), HelloPayload()))
    ensures Fits([id], ts) ==> exists payload :: Carries(frame, id, ts, Ascii("hello"), payload) && IsHello(payload)
  {
    var w := BeginEnvelope(id, ts, Ascii("hello"), Ascii("high"), 4);
    WriteHelloPayload(w);
    EnvelopeComplete(w, id, ts, Ascii("hello"), Ascii("high"), w.values);
    frame := w.out;
    HelloFrame(id, ts);
  }

  method WriteHelloPayload(w: MpWriter)
    requires w.Valid() && w.values == []
    modifies w
    ensures w.Valid() && w.base == old(w.base) && w.values == HelloPayload()
  {
    w.WriteStringField(Ascii("plugin_version"), Ascii("0.0.3-cpp-shim"));
    w.WriteUIntField(Ascii("protocol_version"), 1);
    w.WriteUIntField(Ascii("obs_pid"), 0);
    w.WriteString(Ascii("capabilities"));
    ghost var fields := w.values;
    WriteCapabilities(w);
    assert fields + [ArrayOf(Capabilities())] == HelloPayload();
  }

  method WriteCapabilities(w: MpWriter)
    requires w.Valid()
    modifies w
    ensures w.Valid() && w.base == old(w.base) && w.values == old(w.values) + [ArrayOf(Capabilities())]
  {
    ghost var base, fields := w.base, w.values;
    w.WriteArrayHeader(3);
    w.WriteString(Ascii("scene_switch"));
    w.WriteString(Ascii("dock"));
    w.WriteString(Ascii("restart_hint"));
    assert w.values == Capabilities();
    w.Close(ArrayOf(w.values), base, fields);
  }

  ghost predicate IsSetSetting(payload: seq<Value>, key: bytes, value: bool) {
    && |payload| == 4 && DistinctKeys(payload)
    && HasField(payload, Ascii("key"), Str(key)) && HasField(payload, Ascii("value"), Bool(value))
  }

  function SetSettingPayload(key: bytes, value: bool): seq<Value> {
    [Str(Ascii("key")), Str(key), Str(Ascii("value")), Bool(value)]
  }

  lemma SetSettingIsSetSetting(key: bytes, value: bool)
    requires |key| < TWO_32
    ensures IsSetSetting(SetSettingPayload(key, value), key, value) && Writable(MapOf(SetSettingPayload(key, value)))
  {
    var keys, values := [Ascii("key"), Ascii("value")], [Str(key), Bool(value)];
    assert Zip(keys, values) == SetSettingPayload(key, value);
    ZipKeys(keys, values);
    ZipIsWritable(keys, values);
    ZipHas(keys, values, 0);
    ZipHas(keys, values, 1);
  }

  method BuildEnvelopeSetSettingRequest(id: bytes, ts: nat, key: bytes, value: bool) returns (frame: bytes)
    ensures frame == Enc(Envelope(id, ts, Ascii("set_setting_request"), Ascii("high"), SetSettingPayload(key, value)))
    ensures Fits([id, key], ts) ==>
      exists payload :: Carries(frame, id, ts, Ascii("set_setting_request"), payload) && IsSetSetting(payload, key, value)
  {
    var w := BeginEnvelope(id, ts, Ascii("set_setting_request"), Ascii("high"), 2);
    w.WriteStringField(Ascii("key"), key);
    w.WriteBoolField(Ascii("value"), value);
    assert w.values == SetSettingPayload(key, value);
    EnvelopeComplete(w, id, ts, Ascii("set_setting_request"), Ascii("high"), w.values);
    frame := w.out;
    if Fits([id, key], ts) {
      assert id in [id, key] && key in [id, key];
      SetSettingIsSetSetting(key, value);
      EnvelopeCarries(id, ts, Ascii("set_setting_request"), SetSettingPayload(key, value));
    }
  }

  ghost predicate IsResult(payload: seq<Value>, requestId: bytes, ok: bool, error: Value) {
    && |payload| == 6 && DistinctKeys(payload)
    && HasField(payload, Ascii("request_id"), Str(requestId)) && HasField(payload, Ascii("ok"), Bool(ok))
    && HasField(payload, Ascii("error"), error)
  }

  function ResultPayload(requestId: bytes, ok: bool, error: Value): seq<Value> {
    [Str(Ascii("request_id")), Str(requestId), Str(Ascii("ok")), Bool(ok), Str(Ascii("error")), error]
  }

  lemma ResultIsResult(requestId: bytes, ok: bool, error: Value)
    requires |requestId| < TWO_32 && Writable(error)
    ensures IsResult(ResultPayload(requestId, ok, error), requestId, ok, error)
    ensures Writable(MapOf(ResultPayload(requestId, ok, error)))
  {
    var keys, values := [Ascii("request_id"), Ascii("ok"), Ascii("error")], [Str(requestId), Bool(ok), error];
    assert Zip(keys, values) == ResultPayload(requestId, ok, error);
    ZipKeys(keys, values);
    ZipIsWritable(keys, values);
    ZipHas(keys, values, 0);
    ZipHas(keys, values, 1);
    ZipHas(keys, values, 2);
  }

  method BuildEnvelopeSceneSwitchResult(id: bytes, ts: nat, requestId: bytes, ok: bool, error: bytes)
    returns (frame: bytes)
    ensures frame == Enc(Envelope(id, ts, Ascii("scene_switch_result"), Ascii("high"),
      ResultPayload(requestId, ok, if ok || error == [] then Nil else Str(error))))
    ensures Fits([id, requestId, error], ts) ==> exists payload ::
      && Carries(frame, id, ts, Ascii("scene_switch_result"), payload)
      && IsResult(payload, requestId, ok, if ok || error == [] then Nil else Str(error))
  {
    var w := BeginEnvelope(id, ts, Ascii("scene_switch_result"), Ascii("high"), 3);
    ghost var reported := if ok || error == [] then Nil else Str(error);
    WriteResultPayload(w, requestId, ok, error);
    EnvelopeComplete(w, id, ts, Ascii("scene_switch_result"), Ascii("high"), w.values);
    frame := w.out;
    if Fits([id, requestId, error], ts) {
      assert id in [id, requestId, error] && requestId in [id, requestId, error] && error in [id, requestId, error];
      ResultIsResult(requestId, ok, reported);
      EnvelopeCarries(id, ts, Ascii("scene_switch_result"), ResultPayload(requestId, ok, reported));
    }
  }

  method WriteResultPayload(w: MpWriter, requestId: bytes, ok: bool, error: bytes)
    requires w.Valid() && w.values == []
    modifies w
    ensures w.Valid() && w.base == old(w.base)
    ensures w.values == ResultPayload(requestId, ok, if ok || error == [] then Nil else Str(error))
  {
    w.WriteStringField(Ascii("request_id"), requestId);
    w.WriteBoolField(Ascii("ok"), ok);
    w.WriteString(Ascii("error"));
    if ok || error == [] {
      w.WriteNil();
    } else {
      w.WriteString(error);
    }
  }
}
