/** Length-prefixed frames over a pipe that delivers and accepts bytes in arbitrary chunks. */
module Framing {
  import opened Wire

  const MAX_FRAME_SIZE: nat := 64 * 1024

  // ----- Specification -----

  /** A 32-bit length, least significant byte first. */
  function Length32(n: nat): (r: bytes)
    ensures |r| == 4
  {
    [n % 256, n / 256 % 256, n / 0x1_0000 % 256, n / 0x100_0000 % 256]
  }

  function Length32Value(s: bytes): nat
    requires |s| == 4
  {
    s[0] as nat + 256 * (s[1] as nat) + 0x1_0000 * (s[2] as nat) + 0x100_0000 * (s[3] as nat)
  }

  predicate Sendable(payload: bytes) { 1 <= |payload| <= MAX_FRAME_SIZE }

  function FrameOf(payload: bytes): bytes { Length32(|payload|) + payload }

  function Frames(payloads: seq<bytes>): bytes {
    if payloads == [] then [] else FrameOf(payloads[0]) + Frames(payloads[1..])
  }

  datatype ReadResult = Timeout | Frame(payload: bytes) | Disconnected

  /** The outcome of reading one frame from the bytes still to arrive. */
  function NextFrame(stream: bytes): ReadResult {
    if |stream| < 4 then Disconnected
    else
      var len := Length32Value(stream[..4]);
      if len == 0 || len > MAX_FRAME_SIZE || 4 + len > |stream| then Disconnected
      else Frame(stream[4..4 + len])
  }

  /** The stream starts with the payload, of 1 to 65536 bytes, behind its length in four bytes, the least significant
      first. */
  predicate Framed(stream: bytes, payload: bytes) {
    && 1 <= |payload| <= 65536 && 4 + |payload| <= |stream|
    && stream[0] as int + 256 * (stream[1] as int) + 65536 * (stream[2] as int) + 16777216 * (stream[3] as int) == |payload|
    && stream[4..4 + |payload|] == payload
  }

  // ----- The loops -----

  datatype Readiness = Ready | NoData | Gone

  class Pipe {
    /** Every byte that will still arrive before the peer goes away. */
    var incoming: bytes
    /** Every byte the peer has been handed. */
    var outgoing: bytes
    /** The other side no longer takes bytes. */
    var broken: bool
    /** How many more looks at the session's running flag find it set; another thread may clear it at any time. */
    var looks: nat

    constructor (incoming: bytes, looks: nat)
      ensures this.incoming == incoming && outgoing == [] && !broken && this.looks == looks
    {
      this.incoming, outgoing, broken := incoming, [], false;
      this.looks := looks;
    }

    method IsRunning() returns (running: bool)
      modifies this`looks
      ensures running <==> old(looks) > 0
      ensures looks == if running then old(looks) - 1 else 0
    {
      running := looks > 0;
      looks := if running then looks - 1 else 0;
    }

    /** The system call: any non-empty part of what is there, nothing only at the end. */
    method ReadFile(max: nat) returns (got: bytes)
      requires max > 0
      modifies this`incoming
      ensures old(incoming) == got + incoming && |got| <= max
      ensures old(incoming) != [] ==> got != []
    {
      if incoming == [] {
        return [];
      }
      var n: nat :| 1 <= n <= max && n <= |incoming|;
      got := incoming[..n];
      incoming := incoming[n..];
    }

    /** The system call: any non-empty part of the data, nothing only when the pipe is broken. */
    method WriteFile(data: bytes) returns (wrote: nat)
      requires data != []
      modifies this`outgoing
      ensures wrote <= |data| && outgoing == old(outgoing) + data[..wrote]
      ensures wrote == 0 <==> broken
    {
      if broken {
        return 0;
      }
      wrote :| 1 <= wrote <= |data|;
      outgoing := outgoing + data[..wrote];
    }

    method ReadExact(len: nat) returns (ok: bool, dst: bytes)
      modifies this`incoming, this`looks
      ensures old(incoming) == dst + incoming && |dst| <= len && looks <= old(looks)
      ensures ok <==> |dst| == len
      ensures looks > 0 ==> (ok <==> len <= |old(incoming)|)
      ensures old(looks) == 0 ==> dst == []
    {
      dst := [];
      var running := IsRunning();
      while running && |dst| < len
        invariant |dst| <= len && old(incoming) == dst + incoming && looks <= old(looks)
        invariant looks > 0 ==> running
        invariant old(looks) == 0 ==> !running && dst == []
        decreases len - |dst|
      {
        var got := ReadFile(len - |dst|);
        if got == [] {
          return false, dst;
        }
        dst := dst + got;
        running := IsRunning();
      }
      ok := |dst| == len;
    }

    method WriteAll(src: bytes) returns (ok: bool)
      modifies this`outgoing, this`looks
      ensures old(outgoing) <= outgoing <= old(outgoing) + src && looks <= old(looks)
      ensures ok <==> outgoing == old(outgoing) + src
      ensures looks > 0 && !broken ==> ok
    {
      var total := 0;
      var running := IsRunning();
      while running && total < |src|
        invariant 0 <= total <= |src| && outgoing == old(outgoing) + src[..total] && looks <= old(looks)
        invariant looks > 0 ==> running
        decreases |src| - total
      {
        var wrote := WriteFile(src[total..]);
        if wrote == 0 {
          return false;
        }
        assert src[..total] + src[total..][..wrote] == src[..total + wrote];
        total := total + wrote;
        running := IsRunning();
      }
      ok := total == |src|;
    }

    /** `ready` is what polling the pipe reported. Whenever a frame is returned it is the next one, whole. */
    method TryReadFrame(ready: Readiness) returns (r: ReadResult)
      modifies this`incoming, this`looks
      ensures looks <= old(looks)
      ensures ready == NoData ==> r == Timeout && incoming == old(incoming)
      ensures ready == Gone ==> r == Disconnected && incoming == old(incoming)
      ensures ready == Ready ==> r != Timeout && (looks > 0 ==> r == NextFrame(old(incoming)))
      ensures r.Frame? ==> Sendable(r.payload) && old(incoming) == FrameOf(r.payload) + incoming
      ensures r.Frame? ==> Framed(old(incoming), r.payload) && incoming == old(incoming)[4 + |r.payload|..]
      ensures ready == Ready && looks > 0 ==> forall payload | Framed(old(incoming), payload) :: r == Frame(payload)
    {
      forall payload | Framed(incoming, payload) ensures NextFrame(incoming) == Frame(payload) {
        FramedIsFrame(incoming, payload);
      }
      if ready == NoData {
        return Timeout;
      }
      if ready == Gone {
        return Disconnected;
      }
      var ok, header := ReadExact(4);
      if !ok {
        return Disconnected;
      }
      assert old(incoming)[..4] == header;
      var len := Length32Value(header);
      if len == 0 || len > MAX_FRAME_SIZE {
        return Disconnected;
      }
      var payload;
      ok, payload := ReadExact(len);
      if !ok {
        return Disconnected;
      }
      LengthIsUnique(header);
      assert old(incoming) == FrameOf(payload) + incoming;
      assert old(incoming)[4..4 + len] == payload;
      FramedIsFrame(old(incoming), payload);
      return Frame(payload);
    }

    method WriteFrame(payload: bytes) returns (ok: bool)
      modifies this`outgoing, this`looks
      ensures !Sendable(payload) ==> !ok && outgoing == old(outgoing)
      ensures Sendable(payload) && looks > 0 && !broken ==> ok
      ensures ok <==> Sendable(payload) && outgoing == old(outgoing) + FrameOf(payload)
      ensures old(outgoing) <= outgoing <= old(outgoing) + FrameOf(payload)
      ensures ok ==> Framed(outgoing[|old(outgoing)|..], payload) && |outgoing| == |old(outgoing)| + 4 + |payload|
      ensures payload == [] || |payload| > 65536 ==> !ok && outgoing == old(outgoing)
    {
      if payload == [] || |payload| > MAX_FRAME_SIZE {
        assert |old(outgoing) + FrameOf(payload)| > |old(outgoing)|;
        return false;
      }
      ok := WriteAll(Length32(|payload|));
      if !ok {
        return false;
      }
      assert old(outgoing) + Length32(|payload|) + payload == old(outgoing) + FrameOf(payload);
      ok := WriteAll(payload);
      FrameIsFramed(payload);
    }

    /** The session loop's reads, one poll of the pipe after another: nothing yet means poll again, and the loop ends
        when the pipe is gone, a read fails or the session stops, between frames or inside one. */
    method ReceiveFrames(polls: seq<Readiness>) returns (payloads: seq<bytes>)
      modifies this`incoming, this`looks
      ensures |payloads| <= ReadyPolls(polls) && (forall i | 0 <= i < |payloads| :: Sendable(payloads[i]))
      ensures forall sent, rest | Sent(old(incoming), sent, rest, ReadyPolls(polls)) :: payloads <= sent
      ensures looks > 0 ==>
        forall sent, rest | Sent(old(incoming), sent, rest, ReadyPolls(polls)) :: payloads == sent && incoming == rest
    {
      payloads := [];
      ghost var before, count, stream := incoming, ReadyPolls(polls), incoming;
      assert polls[0..] == polls;
      var i := 0;
      var running := IsRunning();
      while running && i < |polls|
        invariant i <= |polls| && (looks > 0 ==> running)
        invariant |payloads| + ReadyPolls(polls[i..]) == count
        invariant stream == incoming && before == Frames(payloads) + stream
        invariant forall k | 0 <= k < |payloads| :: Sendable(payloads[k])
      {
        assert polls[i..][1..] == polls[i + 1..];
        if polls[i] == Ready {
          AllComing(before, payloads, stream, count);
        }
        var r := TryReadFrame(polls[i]);
        if r == Disconnected {
          PrefixReceived(before, payloads, stream, count);
          if polls[i] == Gone {
            AllReceived(before, payloads, incoming, count);
          }
          return;
        }
        if r.Frame? {
          OneFrameLess(before, payloads, r.payload, stream, incoming);
          payloads := payloads + [r.payload];
        }
        stream := incoming;
        i := i + 1;
        running := IsRunning();
      }
      PrefixReceived(before, payloads, stream, count);
      AllReceived(before, payloads, incoming, count);
    }
  }

  /** How many polls report data before one reports the pipe gone. */
  function ReadyPolls(polls: seq<Readiness>): nat {
    if polls == [] || polls[0] == Gone then 0
    else (if polls[0] == Ready then 1 else 0) + ReadyPolls(polls[1..])
  }

  /** The stream starts with the frames of these `count` payloads. */
  ghost predicate Sent(stream: bytes, payloads: seq<bytes>, rest: bytes, count: nat) {
    stream == Frames(payloads) + rest && |payloads| == count && forall i | 0 <= i < count :: Sendable(payloads[i])
  }

  lemma OneFrameLess(before: bytes, got: seq<bytes>, payload: bytes, stream: bytes, rest: bytes)
    requires before == Frames(got) + stream && stream == FrameOf(payload) + rest
    ensures before == Frames(got + [payload]) + rest
  {
    FramesSnoc(got, payload);
  }

  lemma AllComing(before: bytes, got: seq<bytes>, stream: bytes, count: nat)
    requires Sent(before, got, stream, |got|) && |got| < count
    ensures (exists sent, rest :: Sent(before, sent, rest, count)) ==> NextFrame(stream).Frame?
  {
    if sent, rest :| Sent(before, sent, rest, count) {
      MoreFramesToCome(got, sent, stream, rest);
    }
  }

  /** What was read is the front of what was sent. */
  lemma PrefixReceived(before: bytes, got: seq<bytes>, stream: bytes, count: nat)
    requires Sent(before, got, stream, |got|) && |got| <= count
    ensures forall sent, rest | Sent(before, sent, rest, count) :: got <= sent
  {
    forall sent, rest | Sent(before, sent, rest, count) ensures got <= sent {
      var n := |got|;
      FramesSplit(sent, n);
      assert before == Frames(sent[..n]) + (Frames(sent[n..]) + rest);
      FramesAreUnique(got, sent[..n], stream, Frames(sent[n..]) + rest);
    }
  }

  lemma {:induction false} FramesSplit(payloads: seq<bytes>, n: nat)
    requires n <= |payloads|
    ensures Frames(payloads) == Frames(payloads[..n]) + Frames(payloads[n..])
  {
    if n == 0 {
      assert payloads[0..] == payloads;
    } else {
      FramesSplit(payloads[1..], n - 1);
      assert payloads[1..][..n - 1] == payloads[..n][1..] && payloads[1..][n - 1..] == payloads[n..];
    }
  }

  lemma AllReceived(before: bytes, got: seq<bytes>, rest: bytes, count: nat)
    requires before == Frames(got) + rest && forall i | 0 <= i < |got| :: Sendable(got[i])
    ensures |got| == count ==> forall sent, rest' | Sent(before, sent, rest', count) :: got == sent && rest == rest'
  {
    forall sent, rest' | |got| == count && Sent(before, sent, rest', count)
      ensures got == sent && rest == rest'
    {
      FramesAreUnique(got, sent, rest, rest');
    }
  }

  // ----- Laws -----

  lemma LengthReadsBack(n: nat)
    requires n < TWO_32
    ensures Length32Value(Length32(n)) == n
  {
    assert n / 0x1_0000 == n / 256 / 256 && n / 0x100_0000 == n / 256 / 256 / 256;
  }

  lemma LengthIsUnique(s: bytes)
    requires |s| == 4
    ensures Length32(Length32Value(s)) == s
  {
    var n := Length32Value(s);
    assert n % 256 == s[0] && n / 256 == s[1] as nat + 256 * (s[2] as nat) + 0x1_0000 * (s[3] as nat);
    assert n / 0x1_0000 == s[2] as nat + 256 * (s[3] as nat) && n / 0x100_0000 == s[3];
  }

  lemma FramedIsFrame(stream: bytes, payload: bytes)
    ensures NextFrame(stream) == Frame(payload) <==> Framed(stream, payload)
  {
    if |stream| >= 4 {
      assert Length32Value(stream[..4]) ==
        stream[0] as nat + 256 * (stream[1] as nat) + 0x1_0000 * (stream[2] as nat) + 0x100_0000 * (stream[3] as nat);
    }
  }

  lemma FrameIsFramed(payload: bytes)
    requires Sendable(payload)
    ensures Framed(FrameOf(payload), payload)
  {
    LengthReadsBack(|payload|);
    var frame := FrameOf(payload);
    assert frame[..4] == Length32(|payload|) && frame[4..4 + |payload|] == payload;
    FramedIsFrame(frame, payload);
  }

  lemma FrameComesFirst(stream: bytes, payload: bytes)
    ensures NextFrame(stream) == Frame(payload) <==> Sendable(payload) && FrameOf(payload) <= stream
  {
    if |stream| >= 4 {
      LengthIsUnique(stream[..4]);
      if Sendable(payload) && FrameOf(payload) <= stream {
        LengthReadsBack(|payload|);
        assert stream[..4] == FrameOf(payload)[..4] == Length32(|payload|);
        assert stream[4..4 + |payload|] == FrameOf(payload)[4..];
      }
      if NextFrame(stream) == Frame(payload) {
        assert stream[..4 + |payload|] == stream[..4] + payload;
      }
    }
  }

  /** Reading returns a payload exactly when the stream starts with that payload's frame and its size is admissible. */
  lemma NextFrameIsExact(stream: bytes, payload: bytes)
    ensures NextFrame(stream) == Frame(payload) <==> Sendable(payload) && FrameOf(payload) <= stream
    ensures NextFrame(stream) == Frame(payload) <==> Framed(stream, payload)
  {
    FrameComesFirst(stream, payload);
    FramedIsFrame(stream, payload);
  }

  lemma {:induction false} FramesSnoc(payloads: seq<bytes>, p: bytes)
    ensures Frames(payloads + [p]) == Frames(payloads) + FrameOf(p)
  {
    if payloads == [] {
      assert [] + [p] == [p];
    } else {
      assert (payloads + [p])[1..] == payloads[1..] + [p];
      FramesSnoc(payloads[1..], p);
    }
  }

  /** A stream splits into frames in one way only. */
  lemma {:induction false} FramesAreUnique(a: seq<bytes>, b: seq<bytes>, rest: bytes, rest': bytes)
    requires Frames(a) + rest == Frames(b) + rest' && |a| == |b|
    requires forall i | 0 <= i < |a| :: Sendable(a[i]) && Sendable(b[i])
    ensures a == b && rest == rest'
  {
    if a != [] {
      var stream := Frames(a) + rest;
      assert stream == FrameOf(a[0]) + (Frames(a[1..]) + rest);
      assert stream == FrameOf(b[0]) + (Frames(b[1..]) + rest');
      FrameComesFirst(stream, a[0]);
      FrameComesFirst(stream, b[0]);
      assert stream[|FrameOf(a[0])|..] == Frames(a[1..]) + rest == Frames(b[1..]) + rest';
      FramesAreUnique(a[1..], b[1..], rest, rest');
    } else {
      assert Frames(a) + rest == rest && Frames(b) + rest' == rest';
    }
  }

  lemma {:induction false} MoreFramesToCome(got: seq<bytes>, sent: seq<bytes>, stream: bytes, rest: bytes)
    requires Frames(got) + stream == Frames(sent) + rest && |got| < |sent|
    requires forall i | 0 <= i < |got| :: Sendable(got[i])
    requires forall i | 0 <= i < |sent| :: Sendable(sent[i])
    ensures NextFrame(stream).Frame?
  {
    var all := Frames(got) + stream;
    assert all == FrameOf(sent[0]) + (Frames(sent[1..]) + rest);
    FrameComesFirst(all, sent[0]);
    if got == [] {
      assert all == stream;
    } else {
      assert all == FrameOf(got[0]) + (Frames(got[1..]) + stream);
      FrameComesFirst(all, got[0]);
      assert all[|FrameOf(got[0])|..] == Frames(got[1..]) + stream == Frames(sent[1..]) + rest;
      MoreFramesToCome(got[1..], sent[1..], stream, rest);
    }
  }
}
