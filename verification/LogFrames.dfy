/**
 The frames a guest sends its tenant's output and restarts in, decoded from a byte stream that
 arrives in arbitrary chunks. The bytes after the last whole frame are carried to the next call.
 */
module LogFrames {
  import opened Results
  import opened Bytes

  const MAGIC: seq<Byte> := [78, 66, 76, 49]  // "NBL1"
  const HEADER: nat := 9
  const MAX_PAYLOAD: nat := 65_536
  const GAP_PAYLOAD: nat := 8
  const RESTART_HEADER: nat := 21
  const STDOUT: Byte := 1
  const STDERR: Byte := 2
  const GAP: Byte := 3
  const RESTART: Byte := 4

  datatype Stream = Stdout | Stderr

  datatype Exit = Code(code: int) | Signal(signal: int)

  datatype Restart = Restart(attempt: nat, budget: nat, exit: Exit, reason: seq<Byte>, backoffMs: nat)

  datatype Frame =
    | Data(stream: Stream, bytes: seq<Byte>)
    | Gap(dropped: nat)
    | Restarted(restart: Restart)

  datatype FrameError = BadMagic | TooLong | BadGapLength | UnknownKind | BadRestartLength | UnknownExit | NotText

  datatype Decoded = Decoded(frames: seq<Frame>, rest: seq<Byte>)

  /** Which bytes are UTF-8 text, and how a message is clipped to its longest length. */
  datatype Text = Text(valid: seq<Byte> -> bool, clip: seq<Byte> -> seq<Byte>)

  function DecodeRestart(text: Text, payload: seq<Byte>): Result<Restart, FrameError> {
    if |payload| < RESTART_HEADER then Err(BadRestartLength)
    else
      var ended := Signed32(FromBigEndian(payload[9..13]));
      if payload[8] > 1 then Err(UnknownExit)
      else if !text.valid(payload[RESTART_HEADER..]) then Err(NotText)
      else
        Ok(Restart(
          FromBigEndian(payload[0..4]),
          FromBigEndian(payload[4..8]),
          if payload[8] == 0 then Code(ended) else Signal(ended),
          text.clip(payload[RESTART_HEADER..]),
          FromBigEndian(payload[13..21])))
  }

  function FrameFrom(text: Text, kind: Byte, payload: seq<Byte>): Result<Frame, FrameError> {
    if kind == STDOUT then Ok(Data(Stdout, payload))
    else if kind == STDERR then Ok(Data(Stderr, payload))
    else if kind == GAP then
      if |payload| != GAP_PAYLOAD then Err(BadGapLength) else Ok(Gap(FromBigEndian(payload)))
    else if kind == RESTART then
      var restart :- DecodeRestart(text, payload);
      Ok(Restarted(restart))
    else Err(UnknownKind)
  }

  /** The length of the payload a header announces. */
  function Announced(header: seq<Byte>): nat
    requires |header| >= HEADER
  {
    FromBigEndian(header[5..9])
  }

  /** What stands at the front of a stream: an unreadable frame, part of one, or a whole one. */
  datatype Front = Bad(error: FrameError) | Partial | Whole(frame: Frame, length: nat)

  function FrontOf(text: Text, bytes: seq<Byte>): (r: Front)
    ensures r.Partial? ==> |bytes| < HEADER + MAX_PAYLOAD
    ensures r.Whole? ==> HEADER <= r.length <= |bytes|
  {
    if |bytes| < HEADER then Partial
    else if bytes[..4] != MAGIC then Bad(BadMagic)
    else if Announced(bytes) > MAX_PAYLOAD then Bad(TooLong)
    else
      var length := HEADER + Announced(bytes);
      if |bytes| < length then Partial
      else
        var frame := FrameFrom(text, bytes[4], bytes[HEADER..length]);
        if frame.Err? then Bad(frame.error) else Whole(frame.value, length)
  }

  // What the bytes mean, in figures.

  function RestartLayout(attempt: nat, budget: nat, how: Byte, status: nat, backoffMs: nat, reason: seq<Byte>)
      : (payload: seq<Byte>)
    ensures |payload| == 21 + |reason|
  {
    BigEndian(attempt, 4) + BigEndian(budget, 4) + [how] + BigEndian(status, 4) + BigEndian(backoffMs, 8) + reason
  }

  lemma RestartFields(a: seq<Byte>, b: seq<Byte>, how: Byte, c: seq<Byte>, d: seq<Byte>, e: seq<Byte>)
    requires |a| == 4 && |b| == 4 && |c| == 4 && |d| == 8
    ensures
      var payload := a + b + [how] + c + d + e;
      && payload[0..4] == a && payload[4..8] == b && payload[8] == how && payload[9..13] == c
      && payload[13..21] == d && payload[21..] == e
  {
  }

  /** The restart a payload of this layout stands for. */
  lemma RestartExactly(text: Text, attempt: nat, budget: nat, how: Byte, status: nat, backoffMs: nat, reason: seq<Byte>)
    requires attempt < 0x1_0000_0000 && budget < 0x1_0000_0000 && status < 0x1_0000_0000
    requires backoffMs < 0x1_0000_0000_0000_0000
    ensures
      var signed := if status < 0x8000_0000 then status else status - 0x1_0000_0000;
      DecodeRestart(text, RestartLayout(attempt, budget, how, status, backoffMs, reason)) ==
      if how > 1 then Err(UnknownExit)
      else if !text.valid(reason) then Err(NotText)
      else
        Ok(Restart(attempt, budget, if how == 0 then Code(signed) else Signal(signed), text.clip(reason), backoffMs))
  {
    Widths();
    BigEndianRoundTrip(attempt, 4);
    BigEndianRoundTrip(budget, 4);
    BigEndianRoundTrip(status, 4);
    BigEndianRoundTrip(backoffMs, 8);
    RestartFields(
      BigEndian(attempt, 4), BigEndian(budget, 4), how, BigEndian(status, 4), BigEndian(backoffMs, 8), reason);
  }

  lemma FrameFields(text: Text, head: seq<Byte>, length: seq<Byte>, payload: seq<Byte>, tail: seq<Byte>)
    requires |head| == 5 && head[..4] == MAGIC && |length| == 4 && FromBigEndian(length) == |payload| <= MAX_PAYLOAD
    ensures
      var frame := FrameFrom(text, head[4], payload);
      FrontOf(text, head + length + payload + tail)
      == if frame.Ok? then Whole(frame.value, 9 + |payload|) else Bad(frame.error)
  {
    var bytes := head + length + payload + tail;
    assert bytes[..4] == head[..4] && bytes[4] == head[4] && bytes[5..9] == length;
    assert bytes[9..9 + |payload|] == payload;
  }

  lemma WholeIs(text: Text, kind: Byte, payload: seq<Byte>, tail: seq<Byte>)
    requires |payload| <= 65_536
    ensures
      var frame := FrameFrom(text, kind, payload);
      FrontOf(text, [78, 66, 76, 49, kind] + BigEndian(|payload|, 4) + payload + tail)
      == if frame.Ok? then Whole(frame.value, 9 + |payload|) else Bad(frame.error)
  {
    Widths();
    BigEndianRoundTrip(|payload|, 4);
    FrameFields(text, [78, 66, 76, 49, kind], BigEndian(|payload|, 4), payload, tail);
  }

  /** A stream that starts with a whole frame: "NBL1", a kind, the payload's length and the payload. */
  lemma WholeExactly(text: Text, kind: Byte, payload: seq<Byte>, tail: seq<Byte>)
    requires |payload| <= 65_536
    ensures
      var front := FrontOf(text, [78, 66, 76, 49, kind] + BigEndian(|payload|, 4) + payload + tail);
      var length := 9 + |payload|;
      && (kind == 1 ==> front == Whole(Data(Stdout, payload), length))
      && (kind == 2 ==> front == Whole(Data(Stderr, payload), length))
      && (kind == 3 && |payload| == 8 ==> front == Whole(Gap(FromBigEndian(payload)), length))
      && (kind == 3 && |payload| != 8 ==> front == Bad(BadGapLength))
      && (kind == 4 && |payload| < 21 ==> front == Bad(BadRestartLength))
      && (kind == 4 && |payload| >= 21 ==>
            var r := DecodeRestart(text, payload);
            front == if r.Ok? then Whole(Restarted(r.value), length) else Bad(r.error))
      && (kind == 0 || kind > 4 ==> front == Bad(UnknownKind))
  {
    WholeIs(text, kind, payload, tail);
  }

  /** Any other stream: too short for a header, not one, of a payload too long, or of part of a payload. */
  lemma OtherwiseExactly(text: Text, bytes: seq<Byte>) returns (kind: Byte, payload: seq<Byte>, tail: seq<Byte>)
    ensures |bytes| < 9 ==> FrontOf(text, bytes) == Partial
    ensures |bytes| >= 9 && bytes[..4] != [78, 66, 76, 49] ==> FrontOf(text, bytes) == Bad(BadMagic)
    ensures |bytes| >= 9 && bytes[..4] == [78, 66, 76, 49] ==>
        var announced := FromBigEndian(bytes[5..9]);
        if announced > 65_536 then FrontOf(text, bytes) == Bad(TooLong)
        else if |bytes| < 9 + announced then FrontOf(text, bytes) == Partial
        else
          && |payload| == announced
          && bytes == [78, 66, 76, 49, kind] + BigEndian(announced, 4) + payload + tail
  {
    kind, payload, tail := 0, [], [];
    if |bytes| >= 9 && bytes[..4] == [78, 66, 76, 49] {
      var announced := FromBigEndian(bytes[5..9]);
      if 9 + announced <= |bytes| {
        kind, payload, tail := bytes[4], bytes[9..9 + announced], bytes[9 + announced..];
        FromBigEndianRoundTrip(bytes[5..9]);
        assert bytes == bytes[..4] + [kind] + bytes[5..9] + payload + tail;
      }
    }
  }

  /** All of a stream at once. */
  function Decode(text: Text, bytes: seq<Byte>): Result<Decoded, FrameError>
    decreases |bytes|
  {
    match FrontOf(text, bytes)
    case Bad(error) => Err(error)
    case Partial => Ok(Decoded([], bytes))
    case Whole(frame, length) => After([frame], Decode(text, bytes[length..]))
  }

  /** What decoding the rest of a stream adds to what was already decoded. */
  function After(frames: seq<Frame>, later: Result<Decoded, FrameError>): Result<Decoded, FrameError> {
    if later.Ok? then Ok(Decoded(frames + later.value.frames, later.value.rest)) else later
  }

  lemma AfterNothing(later: Result<Decoded, FrameError>)
    ensures After([], later) == later
  {
    if later.Ok? {
      assert [] + later.value.frames == later.value.frames;
    }
  }

  lemma AfterBoth(first: seq<Frame>, second: seq<Frame>, later: Result<Decoded, FrameError>)
    ensures After(first, After(second, later)) == After(first + second, later)
  {
    if later.Ok? {
      assert first + (second + later.value.frames) == (first + second) + later.value.frames;
    }
  }

  /** The frame at an offset, read through its header and its payload. */
  method ReadFrame(text: Text, rest: seq<Byte>, offset: nat) returns (r: Front)
    requires offset + HEADER <= |rest|
    ensures r == FrontOf(text, rest[offset..])
  {
    ghost var left := rest[offset..];
    var header := rest[offset..offset + HEADER];
    assert header == left[..HEADER];
    assert header[..4] == left[..4];
    if header[..4] != MAGIC {
      return Bad(BadMagic);
    }
    assert header[5..9] == left[5..9];
    var payloadLength := FromBigEndian(header[5..9]);
    if payloadLength > MAX_PAYLOAD {
      return Bad(TooLong);
    }
    var length := HEADER + payloadLength;
    if |rest| - offset < length {
      return Partial;
    }
    var payload := rest[offset + HEADER..offset + length];
    assert payload == left[HEADER..length];
    var frame := FrameFrom(text, header[4], payload);
    r := if frame.Err? then Bad(frame.error) else Whole(frame.value, length);
  }

  /** One call: what was carried over, followed by a chunk. */
  method DecodeFrames(text: Text, buffered: seq<Byte>, chunk: seq<Byte>) returns (r: Result<Decoded, FrameError>)
    ensures r == Decode(text, buffered + chunk)
    ensures r.Ok? ==> |r.value.rest| < HEADER + MAX_PAYLOAD
  {
    var rest := buffered + chunk;
    var frames: seq<Frame> := [];
    var offset := 0;
    ghost var all := Decode(text, rest);
    assert rest[0..] == rest;
    AfterNothing(all);
    while |rest| - offset >= HEADER
      invariant offset <= |rest|
      invariant all == After(frames, Decode(text, rest[offset..]))
    {
      var front := ReadFrame(text, rest, offset);
      match front {
        case Bad(error) => return Err(error);
        case Partial => break;
        case Whole(frame, length) =>
          AfterBoth(frames, [frame], Decode(text, rest[offset..][length..]));
          assert rest[offset..][length..] == rest[offset + length..];
          frames := frames + [frame];
          offset := offset + length;
      }
    }
    assert frames + [] == frames;
    r := Ok(Decoded(frames, rest[offset..]));
  }

  // Chunking.

  /** More bytes change what stands at the front only where a frame was not yet whole. */
  lemma FrontSettled(text: Text, a: seq<Byte>, b: seq<Byte>)
    requires !FrontOf(text, a).Partial?
    ensures FrontOf(text, a + b) == FrontOf(text, a)
  {
    var whole := a + b;
    assert whole[..4] == a[..4] && whole[5..9] == a[5..9];
    if a[..4] == MAGIC && Announced(a) <= MAX_PAYLOAD {
      var length := HEADER + Announced(a);
      assert whole[HEADER..length] == a[HEADER..length];
    }
  }

  /** Decoding a stream in two parts, with the carried bytes in between, is decoding it at once. */
  lemma {:induction false} DecodeSplit(text: Text, a: seq<Byte>, b: seq<Byte>)
    ensures
      var first := Decode(text, a);
      Decode(text, a + b) == if first.Ok? then After(first.value.frames, Decode(text, first.value.rest + b)) else first
    decreases |a|
  {
    match FrontOf(text, a) {
      case Partial => AfterNothing(Decode(text, a + b));
      case Bad(error) => FrontSettled(text, a, b);
      case Whole(frame, length) =>
        FrontSettled(text, a, b);
        assert (a + b)[length..] == a[length..] + b;
        DecodeSplit(text, a[length..], b);
        var middle := Decode(text, a[length..]);
        if middle.Ok? {
          AfterBoth([frame], middle.value.frames, Decode(text, middle.value.rest + b));
        }
    }
  }

  /** Feeding chunks one after another, carrying the rest, until an error. */
  function Feed(text: Text, carried: seq<Byte>, chunks: seq<seq<Byte>>): Result<Decoded, FrameError>
    decreases |chunks|
  {
    if chunks == [] then Ok(Decoded([], carried))
    else
      var first :- Decode(text, carried + chunks[0]);
      After(first.frames, Feed(text, first.rest, chunks[1..]))
  }

  function Concat(chunks: seq<seq<Byte>>): seq<Byte> {
    if chunks == [] then [] else chunks[0] + Concat(chunks[1..])
  }

  /** Bytes carried over are never a whole frame: decoding them again yields nothing. */
  lemma {:induction false} RestIsStuck(text: Text, bytes: seq<Byte>)
    ensures
      var r := Decode(text, bytes);
      r.Ok? ==> |r.value.rest| < HEADER + MAX_PAYLOAD && Decode(text, r.value.rest) == Ok(Decoded([], r.value.rest))
    decreases |bytes|
  {
    var front := FrontOf(text, bytes);
    if front.Whole? {
      RestIsStuck(text, bytes[front.length..]);
    }
  }

  lemma {:induction false} FeedIsDecode(text: Text, carried: seq<Byte>, chunks: seq<seq<Byte>>)
    requires Decode(text, carried) == Ok(Decoded([], carried))
    ensures Feed(text, carried, chunks) == Decode(text, carried + Concat(chunks))
    decreases |chunks|
  {
    if chunks == [] {
      assert carried + [] == carried;
    } else {
      var now := carried + chunks[0];
      assert carried + Concat(chunks) == now + Concat(chunks[1..]);
      DecodeSplit(text, now, Concat(chunks[1..]));
      RestIsStuck(text, now);
      if Decode(text, now).Ok? {
        FeedIsDecode(text, Decode(text, now).value.rest, chunks[1..]);
      }
    }
  }

  /** However a stream is cut into chunks, the frames, the carried bytes and the error are the same. */
  lemma ChunkingIrrelevant(text: Text, chunks: seq<seq<Byte>>, others: seq<seq<Byte>>)
    requires Concat(chunks) == Concat(others)
    ensures Feed(text, [], chunks) == Feed(text, [], others) == Decode(text, Concat(chunks))
  {
    FeedIsDecode(text, [], chunks);
    FeedIsDecode(text, [], others);
    assert [] + Concat(chunks) == Concat(chunks);
  }

  // Encoding.

  function EncodeFrame(kind: Byte, payload: seq<Byte>): seq<Byte> {
    Framed(MAGIC, kind, payload)
  }

  predicate InRange32(n: int) {
    -0x8000_0000 <= n < 0x8000_0000
  }

  function Status(exit: Exit): int {
    match exit
    case Code(code) => code
    case Signal(signal) => signal
  }

  function RestartPayload(r: Restart): seq<Byte>
    requires InRange32(Status(r.exit))
  {
    RestartLayout(
      r.attempt, r.budget, if r.exit.Code? then 0 else 1, Unsigned32(Status(r.exit)), r.backoffMs, r.reason)
  }

  /** The frames a guest can hold: figures within their widths, payloads within the limit, text clipped. */
  predicate Sendable(text: Text, f: Frame) {
    match f
    case Data(_, bytes) => |bytes| <= MAX_PAYLOAD
    case Gap(dropped) => dropped < 0x1_0000_0000_0000_0000
    case Restarted(r) =>
      && r.attempt < 0x1_0000_0000 && r.budget < 0x1_0000_0000 && r.backoffMs < 0x1_0000_0000_0000_0000
      && InRange32(Status(r.exit))
      && text.valid(r.reason) && text.clip(r.reason) == r.reason
      && |r.reason| + RESTART_HEADER <= MAX_PAYLOAD
  }

  function Encode(text: Text, f: Frame): seq<Byte>
    requires Sendable(text, f)
  {
    match f
    case Data(stream, bytes) => EncodeFrame(if stream.Stdout? then STDOUT else STDERR, bytes)
    case Gap(dropped) => EncodeFrame(GAP, BigEndian(dropped, 8))
    case Restarted(r) => EncodeFrame(RESTART, RestartPayload(r))
  }

  function EncodeAll(text: Text, frames: seq<Frame>): seq<Byte>
    requires forall i :: 0 <= i < |frames| ==> Sendable(text, frames[i])
  {
    if frames == [] then [] else Encode(text, frames[0]) + EncodeAll(text, frames[1..])
  }

  lemma RestartRoundTrip(text: Text, r: Restart)
    requires Sendable(text, Restarted(r))
    ensures DecodeRestart(text, RestartPayload(r)) == Ok(r)
  {
    var ended := Unsigned32(Status(r.exit));
    RestartExactly(text, r.attempt, r.budget, if r.exit.Code? then 0 else 1, ended, r.backoffMs, r.reason);
  }

  lemma FrameRoundTrip(text: Text, kind: Byte, payload: seq<Byte>, f: Frame, tail: seq<Byte>)
    requires |payload| <= MAX_PAYLOAD && FrameFrom(text, kind, payload) == Ok(f)
    ensures
      var bytes, length := EncodeFrame(kind, payload) + tail, HEADER + |payload|;
      FrontOf(text, bytes) == Whole(f, length) && bytes[length..] == tail
  {
    var bytes, length := EncodeFrame(kind, payload) + tail, HEADER + |payload|;
    Widths();
    BigEndianRoundTrip(|payload|, 4);
    assert bytes[..4] == MAGIC && bytes[4] == kind;
    assert bytes[5..9] == BigEndian(|payload|, 4);
    assert bytes[HEADER..length] == payload;
  }

  lemma EncodeRoundTrip(text: Text, f: Frame, tail: seq<Byte>)
    requires Sendable(text, f)
    ensures Decode(text, Encode(text, f) + tail) == After([f], Decode(text, tail))
  {
    match f {
      case Data(stream, bytes) =>
        FrameRoundTrip(text, if stream.Stdout? then STDOUT else STDERR, bytes, f, tail);
      case Gap(dropped) =>
        Widths();
        BigEndianRoundTrip(dropped, 8);
        FrameRoundTrip(text, GAP, BigEndian(dropped, 8), f, tail);
      case Restarted(r) =>
        RestartRoundTrip(text, r);
        FrameRoundTrip(text, RESTART, RestartPayload(r), f, tail);
    }
  }

  /** Any concatenation of sent frames decodes to exactly those frames, with nothing left over. */
  lemma {:induction false} EncodeAllRoundTrip(text: Text, frames: seq<Frame>)
    requires forall i :: 0 <= i < |frames| ==> Sendable(text, frames[i])
    ensures Decode(text, EncodeAll(text, frames)) == Ok(Decoded(frames, []))
    decreases |frames|
  {
    if frames != [] {
      EncodeAllRoundTrip(text, frames[1..]);
      EncodeRoundTrip(text, frames[0], EncodeAll(text, frames[1..]));
      assert [frames[0]] + frames[1..] == frames;
    }
  }
}
