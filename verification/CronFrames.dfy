/**
 The frames that ask a guest to run a cron command and that carry what came of it, and the frames
 that register a crontab. Text is bytes, with UTF-8 validity a parameter. Both directions are
 proved: bytes are accepted as a value exactly when they are that value's encoding.
 */
module CronFrames {
  import opened Basics
  import opened Bytes
  import opened Results

  type Utf8 = seq<Byte> -> bool

  const EXECUTION_MAGIC: seq<Byte> := [78, 66, 82, 49]  // "NBR1"
  const MAX_CRONTAB: nat := 65_536
  const MAX_VARIABLES: nat := 256
  const MAX_COMMAND: nat := 4096
  const MAX_REQUEST: nat := MAX_CRONTAB + (MAX_VARIABLES + 2) * 4
  const MAX_OUTPUT: nat := 4096
  const MAX_EXIT_CODE: nat := 255
  const MAX_SIGNAL: nat := 64
  const NUL: Byte := 0
  const EQUALS: Byte := 61
  const UNDERSCORE: Byte := 95

  datatype Request = Request(command: seq<Byte>, environment: seq<seq<Byte>>)

  // What a request may hold.

  predicate IsLetter(b: Byte) {
    65 <= b <= 90 || 97 <= b <= 122
  }

  predicate IsDigit(b: Byte) {
    48 <= b <= 57
  }

  predicate IsVariableName(name: seq<Byte>) {
    name != [] && forall i :: 0 <= i < |name| ==>
        IsLetter(name[i]) || name[i] == UNDERSCORE || (i > 0 && IsDigit(name[i]))
  }

  /** `NAME=value`, split at the first equals sign. */
  predicate IsEntry(entry: seq<Byte>) {
    && EQUALS in entry
    && NUL !in entry
    && exists k :: 0 <= k < |entry| && entry[k] == EQUALS && EQUALS !in entry[..k] && IsVariableName(entry[..k])
  }

  predicate IsRequest(q: Request) {
    && q.command != [] && |q.command| <= MAX_COMMAND && NUL !in q.command
    && |q.environment| <= MAX_VARIABLES
    && forall i :: 0 <= i < |q.environment| ==> IsEntry(q.environment[i])
  }

  /** What the types of the fields guarantee: strings are text. */
  ghost predicate IsText(utf8: Utf8, q: Request) {
    utf8(q.command) && forall i :: 0 <= i < |q.environment| ==> utf8(q.environment[i])
  }

  // Encoding.

  function Fields(values: seq<seq<Byte>>): seq<Byte> {
    if values == [] then [] else Field(values[0]) + Fields(values[1..])
  }

  function RequestBody(q: Request): seq<Byte> {
    Field(q.command) + BigEndian(|q.environment|, 4) + Fields(q.environment)
  }

  function EncodeRequest(q: Request): Option<seq<Byte>> {
    if IsRequest(q) && |RequestBody(q)| <= MAX_REQUEST then Some(Framed(EXECUTION_MAGIC, 0, RequestBody(q))) else None
  }

  /** The encoder, appending field by field. */
  method WriteRequest(q: Request) returns (r: Option<seq<Byte>>)
    ensures r == EncodeRequest(q)
  {
    if !IsRequest(q) {
      return None;
    }
    var body := BigEndian(|q.command|, 4) + q.command + BigEndian(|q.environment|, 4);
    ghost var start := body;
    assert q.environment[0..] == q.environment;
    for k := 0 to |q.environment|
      invariant body + Fields(q.environment[k..]) == start + Fields(q.environment)
    {
      assert q.environment[k..][0] == q.environment[k] && q.environment[k..][1..] == q.environment[k + 1..];
      var field := Field(q.environment[k]);
      assert body + (field + Fields(q.environment[k + 1..])) == (body + field) + Fields(q.environment[k + 1..]);
      body := body + field;
    }
    assert body == RequestBody(q);
    r := if |body| > MAX_REQUEST then None else Some(Framed(EXECUTION_MAGIC, 0, body));
  }

  // Decoding.

  function TakeText(utf8: Utf8, bytes: seq<Byte>): Option<(seq<Byte>, seq<Byte>)> {
    var field := TakeField(bytes);
    if field.Some? && utf8(field.value.0) then field else None
  }

  function TakeTexts(utf8: Utf8, bytes: seq<Byte>, count: nat): Option<(seq<seq<Byte>>, seq<Byte>)> {
    if count == 0 then Some(([], bytes))
    else
      var first := TakeText(utf8, bytes);
      if first.None? then None
      else
        var later := TakeTexts(utf8, first.value.1, count - 1);
        if later.None? then None else Some(([first.value.0] + later.value.0, later.value.1))
  }

  function DecodeBody(utf8: Utf8, body: seq<Byte>): Option<Request> {
    var command := TakeText(utf8, body);
    if command.None? then None
    else
      var count := TakeNumber(command.value.1, 4);
      if count.None? || count.value.0 > MAX_VARIABLES then None
      else
        var environment := TakeTexts(utf8, count.value.1, count.value.0);
        if environment.None? || environment.value.1 != [] then None
        else
          var q := Request(command.value.0, environment.value.0);
          if IsRequest(q) then Some(q) else None
  }

  /** A whole request as it arrives: the header is checked, then as many bytes as it announces. */
  function DecodeRequest(utf8: Utf8, bytes: seq<Byte>): Option<Request> {
    if IsFrame(EXECUTION_MAGIC, bytes) && bytes[4] == 0 && |bytes| - FRAME_HEADER <= MAX_REQUEST
    then DecodeBody(utf8, bytes[FRAME_HEADER..])
    else None
  }

  /** Texts taken so far, followed by those still to be taken. */
  function Joined(taken: seq<seq<Byte>>, later: Option<(seq<seq<Byte>>, seq<Byte>)>)
    : Option<(seq<seq<Byte>>, seq<Byte>)>
  {
    if later.None? then None else Some((taken + later.value.0, later.value.1))
  }

  lemma JoinedNothing(later: Option<(seq<seq<Byte>>, seq<Byte>)>)
    ensures Joined([], later) == later
  {
    if later.Some? {
      assert [] + later.value.0 == later.value.0;
    }
  }

  lemma JoinedStep(utf8: Utf8, taken: seq<seq<Byte>>, bytes: seq<Byte>, count: nat)
    requires count > 0
    ensures
      Joined(taken, TakeTexts(utf8, bytes, count)) ==
      var first := TakeText(utf8, bytes);
      if first.None? then None else Joined(taken + [first.value.0], TakeTexts(utf8, first.value.1, count - 1))
  {
    var all := TakeTexts(utf8, bytes, count);
    if all.Some? {
      var first := TakeText(utf8, bytes).value;
      var later := TakeTexts(utf8, first.1, count - 1).value;
      assert taken + ([first.0] + later.0) == (taken + [first.0]) + later.0;
    }
  }

  /** The environment loop of the body decoder, advancing over what is left of the bytes. */
  method ReadTexts(utf8: Utf8, bytes: seq<Byte>, count: nat) returns (r: Option<(seq<seq<Byte>>, seq<Byte>)>)
    ensures r == TakeTexts(utf8, bytes, count)
  {
    var rest := bytes;
    var taken: seq<seq<Byte>> := [];
    JoinedNothing(TakeTexts(utf8, bytes, count));
    for k := 0 to count
      invariant Joined(taken, TakeTexts(utf8, rest, count - k)) == TakeTexts(utf8, bytes, count)
    {
      JoinedStep(utf8, taken, rest, count - k);
      var next := TakeText(utf8, rest);
      if next.None? {
        return None;
      }
      taken, rest := taken + [next.value.0], next.value.1;
    }
    assert taken + [] == taken;
    r := Some((taken, rest));
  }

  /** The body decoder, advancing over what is left of the bytes. */
  method ReadBody(utf8: Utf8, body: seq<Byte>) returns (r: Option<Request>)
    ensures r == DecodeBody(utf8, body)
  {
    var command := TakeText(utf8, body);
    if command.None? {
      return None;
    }
    var count := TakeNumber(command.value.1, 4);
    if count.None? || count.value.0 > MAX_VARIABLES {
      return None;
    }
    var environment := ReadTexts(utf8, count.value.1, count.value.0);
    if environment.None? {
      return None;
    }
    var q := Request(command.value.0, environment.value.0);
    r := if environment.value.1 != [] || !IsRequest(q) then None else Some(q);
  }

  // Exactness.

  ghost predicate Writable(utf8: Utf8, values: seq<seq<Byte>>) {
    forall i :: 0 <= i < |values| ==> utf8(values[i]) && |values[i]| < 0x1_0000_0000
  }

  lemma TakeTextsCons(utf8: Utf8, value: seq<Byte>, bytes: seq<Byte>, count: nat)
    requires utf8(value) && |value| < 0x1_0000_0000
    ensures TakeTexts(utf8, Field(value) + bytes, count + 1) == Joined([value], TakeTexts(utf8, bytes, count))
  {
    TakeFieldExactly(Field(value) + bytes, value, bytes);
  }

  lemma FieldsCons(value: seq<Byte>, more: seq<seq<Byte>>)
    ensures Fields([value] + more) == Field(value) + Fields(more)
  {
    assert ([value] + more)[1..] == more;
  }

  lemma TakeTextsStep(utf8: Utf8, value: seq<Byte>, more: seq<seq<Byte>>, rest: seq<Byte>)
    requires utf8(value) && |value| < 0x1_0000_0000
    requires TakeTexts(utf8, Fields(more) + rest, |more|) == Some((more, rest))
    ensures TakeTexts(utf8, Fields([value] + more) + rest, |more| + 1) == Some(([value] + more, rest))
  {
    FieldsCons(value, more);
    Associates(Field(value), Fields(more), rest);
    TakeTextsCons(utf8, value, Fields(more) + rest, |more|);
  }

  lemma {:induction false} TakeTextsRead(utf8: Utf8, values: seq<seq<Byte>>, rest: seq<Byte>)
    requires Writable(utf8, values)
    ensures TakeTexts(utf8, Fields(values) + rest, |values|) == Some((values, rest))
    decreases |values|
  {
    if values == [] {
      assert Fields(values) + rest == rest;
    } else {
      TakeTextsRead(utf8, values[1..], rest);
      TakeTextsStep(utf8, values[0], values[1..], rest);
      assert [values[0]] + values[1..] == values;
    }
  }

  lemma {:induction false} TakeTextsWrote(utf8: Utf8, bytes: seq<Byte>, count: nat)
    requires TakeTexts(utf8, bytes, count).Some?
    ensures
      var (values, rest) := TakeTexts(utf8, bytes, count).value;
      |values| == count && Writable(utf8, values) && bytes == Fields(values) + rest
    decreases count
  {
    if count == 0 {
      assert bytes == [] + bytes;
    } else {
      var (first, left) := TakeText(utf8, bytes).value;
      TakeFieldFits(bytes);
      TakeFieldExactly(bytes, first, left);
      TakeTextsWrote(utf8, left, count - 1);
      var (later, rest) := TakeTexts(utf8, left, count - 1).value;
      var values := [first] + later;
      assert values[0] == first && values[1..] == later;
      assert Field(first) + (Fields(later) + rest) == (Field(first) + Fields(later)) + rest;
    }
  }

  lemma EnvironmentReads(utf8: Utf8, values: seq<seq<Byte>>)
    requires Writable(utf8, values) && |values| < 0x1_0000_0000
    ensures
      var texts := Fields(values);
      && TakeNumber(BigEndian(|values|, 4) + texts, 4) == Some((|values|, texts))
      && TakeTexts(utf8, texts, |values|) == Some((values, []))
  {
    var texts := Fields(values);
    Widths();
    TakeNumberExactly(BigEndian(|values|, 4) + texts, 4, |values|, texts);
    assert texts + [] == texts;
    TakeTextsRead(utf8, values, []);
  }

  lemma BodyReads(utf8: Utf8, q: Request)
    requires IsRequest(q) && IsText(utf8, q) && |RequestBody(q)| <= MAX_REQUEST
    ensures DecodeBody(utf8, RequestBody(q)) == Some(q)
  {
    var rest := BigEndian(|q.environment|, 4) + Fields(q.environment);
    assert Writable(utf8, q.environment) by { FieldsFit(q.environment); }
    Associates(Field(q.command), BigEndian(|q.environment|, 4), Fields(q.environment));
    TakeFieldExactly(RequestBody(q), q.command, rest);
    EnvironmentReads(utf8, q.environment);
  }

  lemma {:induction false} FieldsFit(values: seq<seq<Byte>>)
    ensures forall i :: 0 <= i < |values| ==> |values[i]| <= |Fields(values)|
    decreases |values|
  {
    if values != [] {
      FieldsFit(values[1..]);
      assert forall i :: 0 < i < |values| ==> values[i] == values[1..][i - 1];
    }
  }

  lemma BodyWrote(utf8: Utf8, body: seq<Byte>)
    requires DecodeBody(utf8, body).Some?
    ensures
      var q := DecodeBody(utf8, body).value;
      IsRequest(q) && IsText(utf8, q) && RequestBody(q) == body
  {
    var (command, rest) := TakeText(utf8, body).value;
    TakeFieldFits(body);
    TakeFieldExactly(body, command, rest);
    var (n, left) := TakeNumber(rest, 4).value;
    TakeNumberFits(rest, 4);
    TakeNumberExactly(rest, 4, n, left);
    TakeTextsWrote(utf8, left, n);
    var (values, end) := TakeTexts(utf8, left, n).value;
    assert Fields(values) + [] == Fields(values);
    assert Field(command) + (BigEndian(n, 4) + left) == (Field(command) + BigEndian(n, 4)) + left;
  }

  /** A request is accepted from bytes exactly when those bytes are its encoding: two-way inverses. */
  lemma RequestExactly(utf8: Utf8, bytes: seq<Byte>, q: Request)
    ensures DecodeRequest(utf8, bytes) == Some(q) <==> IsText(utf8, q) && EncodeRequest(q) == Some(bytes)
  {
    if DecodeRequest(utf8, bytes) == Some(q) {
      BodyWrote(utf8, bytes[FRAME_HEADER..]);
      FrameExactly(EXECUTION_MAGIC, bytes, 0, RequestBody(q));
    }
    if IsText(utf8, q) && EncodeRequest(q) == Some(bytes) {
      FrameExactly(EXECUTION_MAGIC, bytes, 0, RequestBody(q));
      BodyReads(utf8, q);
    }
  }

  // The same in figures.

  lemma FirstEquals(name: seq<Byte>, value: seq<Byte>, k: nat)
    requires 61 !in name
    ensures
      var entry := name + [61] + value;
      k < |entry| && entry[k] == 61 && 61 !in entry[..k] ==> k == |name|
  {
    var entry := name + [61] + value;
    assert entry[|name|] == 61;
    assert k < |name| ==> entry[k] == name[k];
    assert |name| < k <= |entry| ==> entry[..k][|name|] == 61;
  }

  /** An entry is a name of letters, digits and underscores, not starting with a digit, "=", and a value. */
  lemma EntryExactly(name: seq<Byte>, value: seq<Byte>)
    requires 61 !in name
    ensures IsEntry(name + [61] + value) <==>
            && name != [] && 0 !in value
            && (forall i :: 0 <= i < |name| ==>
                  65 <= name[i] <= 90 || 97 <= name[i] <= 122 || name[i] == 95 || (i > 0 && 48 <= name[i] <= 57))
    ensures !IsEntry(name)
  {
    var entry, n := name + [61] + value, |name|;
    assert entry[..n] == name && entry[n] == 61;
    if IsEntry(entry) {
      var k :| 0 <= k < |entry| && entry[k] == EQUALS && EQUALS !in entry[..k] && IsVariableName(entry[..k]);
      FirstEquals(name, value, k);
      assert forall b :: b in value ==> b in entry;
    } else if IsVariableName(name) {
      assert forall b :: b in entry ==> b in name || b == 61 || b in value;
    }
  }

  lemma RequestLayout(q: Request)
    ensures
      var body := BigEndian(|q.command|, 4) + q.command + BigEndian(|q.environment|, 4) + Fields(q.environment);
      EncodeRequest(q) ==
      if 1 <= |q.command| <= 4096 && 0 !in q.command && |q.environment| <= 256 && |body| <= 66_568
          && forall i :: 0 <= i < |q.environment| ==> IsEntry(q.environment[i])
      then Some(Framed([78, 66, 82, 49], 0, body)) else None
    ensures Fields([]) == []
    ensures forall v: seq<Byte>, more :: Fields([v] + more) == BigEndian(|v|, 4) + v + Fields(more)
  {
    forall v: seq<Byte>, more ensures Fields([v] + more) == BigEndian(|v|, 4) + v + Fields(more) {
      FieldsCons(v, more);
    }
  }

  // What came of a run.

  datatype Rejection = Malformed | SpawnFailed | Busy

  datatype Reply =
    | Started
    | Stdout(bytes: seq<Byte>)
    | Stderr(bytes: seq<Byte>)
    | Exit(code: nat, signal: nat)
    | Rejected(reason: Rejection)

  predicate IsReply(reply: Reply) {
    match reply
    case Stdout(bytes) => 1 <= |bytes| <= MAX_OUTPUT
    case Stderr(bytes) => 1 <= |bytes| <= MAX_OUTPUT
    case Exit(code, signal) => code <= MAX_EXIT_CODE && signal <= MAX_SIGNAL && (code == 0 || signal == 0)
    case _ => true
  }

  function EncodeReply(reply: Reply): Option<seq<Byte>> {
    if !IsReply(reply) then None
    else
      Some(match reply
        case Started => Framed(EXECUTION_MAGIC, 1, [])
        case Stdout(bytes) => Framed(EXECUTION_MAGIC, 2, bytes)
        case Stderr(bytes) => Framed(EXECUTION_MAGIC, 3, bytes)
        case Exit(code, signal) => Framed(EXECUTION_MAGIC, 4, BigEndian(code, 4) + BigEndian(signal, 4))
        case Rejected(reason) =>
          Framed(EXECUTION_MAGIC, 5, [if reason.Malformed? then 1 else if reason.SpawnFailed? then 2 else 3]))
  }

  function ReplyFrom(code: Byte, body: seq<Byte>): Option<Reply> {
    if code == 1 && body == [] then Some(Started)
    else if code == 2 && 1 <= |body| <= MAX_OUTPUT then Some(Stdout(body))
    else if code == 3 && 1 <= |body| <= MAX_OUTPUT then Some(Stderr(body))
    else if code == 4 && |body| == 8 then
      var exit := Exit(FromBigEndian(body[..4]), FromBigEndian(body[4..]));
      if IsReply(exit) then Some(exit) else None
    else if code == 5 && |body| == 1 then
      if body[0] == 1 then Some(Rejected(Malformed))
      else if body[0] == 2 then Some(Rejected(SpawnFailed))
      else if body[0] == 3 then Some(Rejected(Busy))
      else None
    else None
  }

  function DecodeReply(bytes: seq<Byte>): Option<Reply> {
    if IsFrame(EXECUTION_MAGIC, bytes) then ReplyFrom(bytes[4], bytes[FRAME_HEADER..]) else None
  }

  lemma ExitExactly(body: seq<Byte>, code: nat, signal: nat)
    requires code <= MAX_EXIT_CODE && signal <= MAX_SIGNAL
    ensures body == BigEndian(code, 4) + BigEndian(signal, 4) <==>
            |body| == 8 && FromBigEndian(body[..4]) == code && FromBigEndian(body[4..]) == signal
  {
    Widths();
    BigEndianRoundTrip(code, 4);
    BigEndianRoundTrip(signal, 4);
    if |body| == 8 {
      FromBigEndianRoundTrip(body[..4]);
      FromBigEndianRoundTrip(body[4..]);
      assert body == body[..4] + body[4..];
    }
  }

  lemma ExitFrameExactly(bytes: seq<Byte>, code: nat, signal: nat)
    requires IsReply(Exit(code, signal))
    ensures bytes == Framed(EXECUTION_MAGIC, 4, BigEndian(code, 4) + BigEndian(signal, 4)) <==>
            && IsFrame(EXECUTION_MAGIC, bytes) && bytes[4] == 4 && |bytes[FRAME_HEADER..]| == 8
            && FromBigEndian(bytes[FRAME_HEADER..][..4]) == code && FromBigEndian(bytes[FRAME_HEADER..][4..]) == signal
  {
    FrameExactly(EXECUTION_MAGIC, bytes, 4, BigEndian(code, 4) + BigEndian(signal, 4));
    if |bytes| >= FRAME_HEADER {
      ExitExactly(bytes[FRAME_HEADER..], code, signal);
    }
  }

  /** The same for replies: every accepted frame is the one encoding of what it is read as. */
  lemma ReplyExactly(bytes: seq<Byte>, reply: Reply)
    ensures DecodeReply(bytes) == Some(reply) <==> EncodeReply(reply) == Some(bytes)
  {
    match reply {
      case Started => FrameExactly(EXECUTION_MAGIC, bytes, 1, []);
      case Stdout(output) => if IsReply(reply) { FrameExactly(EXECUTION_MAGIC, bytes, 2, output); }
      case Stderr(output) => if IsReply(reply) { FrameExactly(EXECUTION_MAGIC, bytes, 3, output); }
      case Exit(code, signal) =>
        if IsReply(reply) {
          ExitFrameExactly(bytes, code, signal);
        }
      case Rejected(reason) =>
        FrameExactly(EXECUTION_MAGIC, bytes, 5,
            [if reason.Malformed? then 1 else if reason.SpawnFailed? then 2 else 3]);
    }
  }

  lemma ReplyLayout(reply: Reply)
    ensures
      var magic := [78, 66, 82, 49];
      EncodeReply(reply) ==
      match reply
      case Started => Some(Framed(magic, 1, []))
      case Stdout(bytes) => if 1 <= |bytes| <= 4096 then Some(Framed(magic, 2, bytes)) else None
      case Stderr(bytes) => if 1 <= |bytes| <= 4096 then Some(Framed(magic, 3, bytes)) else None
      case Exit(code, signal) =>
        if code <= 255 && signal <= 64 && (code == 0 || signal == 0)
        then Some(Framed(magic, 4, [0, 0, 0, code] + [0, 0, 0, signal])) else None
      case Rejected(Malformed) => Some(Framed(magic, 5, [1]))
      case Rejected(SpawnFailed) => Some(Framed(magic, 5, [2]))
      case Rejected(Busy) => Some(Framed(magic, 5, [3]))
  {
    if reply.Exit? && IsReply(reply) {
      SmallNumber(reply.code);
      SmallNumber(reply.signal);
    }
  }

  // Registration.

  const REGISTRATION_MAGIC: seq<Byte> := [78, 66, 67, 49]  // "NBC1"

  datatype Registration = Replace(crontab: seq<Byte>) | List

  predicate IsCrontab(utf8: Utf8, text: seq<Byte>) {
    utf8(text) && |text| <= MAX_CRONTAB && NUL !in text
  }

  function EncodeRegistration(q: Registration): seq<Byte> {
    if q.Replace? then Framed(REGISTRATION_MAGIC, 1, q.crontab) else Framed(REGISTRATION_MAGIC, 2, [])
  }

  function DecodeRegistration(utf8: Utf8, bytes: seq<Byte>): Option<Registration> {
    if !IsFrame(REGISTRATION_MAGIC, bytes) || |bytes| - FRAME_HEADER > MAX_CRONTAB then None
    else
      var body := bytes[FRAME_HEADER..];
      if bytes[4] == 1 && IsCrontab(utf8, body) then Some(Replace(body))
      else if bytes[4] == 2 && body == [] then Some(List)
      else None
  }

  lemma RegistrationExactly(utf8: Utf8, bytes: seq<Byte>, q: Registration)
    ensures DecodeRegistration(utf8, bytes) == Some(q) <==>
            (q.Replace? ==> IsCrontab(utf8, q.crontab)) && EncodeRegistration(q) == bytes
  {
    if q.Replace? {
      if |q.crontab| <= MAX_CRONTAB {
        FrameExactly(REGISTRATION_MAGIC, bytes, 1, q.crontab);
      }
    } else {
      FrameExactly(REGISTRATION_MAGIC, bytes, 2, []);
    }
  }

  function DecodeAnswer(utf8: Utf8, bytes: seq<Byte>): Option<(Byte, seq<Byte>)> {
    if IsFrame(REGISTRATION_MAGIC, bytes) && |bytes| - FRAME_HEADER <= MAX_CRONTAB && bytes[4] <= 1
        && utf8(bytes[FRAME_HEADER..])
    then Some((bytes[4], bytes[FRAME_HEADER..]))
    else None
  }

  /** An answer is read back exactly when its status is one of the two and its text is short enough. */
  lemma AnswerExactly(utf8: Utf8, bytes: seq<Byte>, status: Byte, text: seq<Byte>)
    requires |text| < 0x1_0000_0000
    ensures DecodeAnswer(utf8, bytes) == Some((status, text)) <==>
            status <= 1 && |text| <= MAX_CRONTAB && utf8(text) && bytes == Framed(REGISTRATION_MAGIC, status, text)
  {
    FrameExactly(REGISTRATION_MAGIC, bytes, status, text);
  }

  lemma RegistrationLayout(utf8: Utf8, crontab: seq<Byte>)
    ensures EncodeRegistration(Replace(crontab)) == Framed([78, 66, 67, 49], 1, crontab)
    ensures EncodeRegistration(List) == Framed([78, 66, 67, 49], 2, [])
    ensures IsCrontab(utf8, crontab) <==> utf8(crontab) && |crontab| <= 65_536 && 0 !in crontab
  {
  }
}
