/**
 The frames by which the host asks a guest about its files. A request is read through a cursor over
 its body; a listing is cut by the writer to what one frame holds and by the reader to a number of
 entries. Text is bytes; which bytes are a guest path, and how unreadable text is repaired, are
 parameters.
 */
module FileFrames {
  import opened Basics
  import opened Bytes
  import opened Results

  const MAGIC: seq<Byte> := [78, 66, 70, 49]  // "NBF1"
  const MAX_BODY: nat := 65_536
  const ENTRY_LIMIT: nat := 1000
  const DETAILS: nat := 17
  const MAX_NAME: nat := 255
  const TRUNCATE: Byte := 1
  const LOST_AND_FOUND: seq<Byte> := [108, 111, 115, 116, 43, 102, 111, 117, 110, 100]  // "lost+found"

  type GuestPath = seq<Byte>
  type IsGuestPath = seq<Byte> -> bool

  // Requests.

  datatype Request =
    | List(path: GuestPath)
    | Stat(path: GuestPath)
    | Read(path: GuestPath, offset: nat, length: nat)
    | Write(path: GuestPath, offset: nat, content: seq<Byte>, truncate: bool)
    | MakeDirectory(path: GuestPath)
    | Remove(path: GuestPath)
    | Move(path: GuestPath, destination: GuestPath)
    | Usage
    | Compute

  function Verb(q: Request): Byte {
    match q
    case List(_) => 1
    case Stat(_) => 2
    case Read(_, _, _) => 3
    case Write(_, _, _, _) => 4
    case MakeDirectory(_) => 5
    case Remove(_) => 6
    case Move(_, _) => 7
    case Usage => 8
    case Compute => 9
  }

  /** A request's body, with the byte of flags a write carries. */
  function BodyWith(q: Request, flags: Byte): seq<Byte> {
    match q
    case Usage => []
    case Compute => []
    case Read(path, offset, length) => Field(path) + (BigEndian(offset, 8) + BigEndian(length, 4))
    case Write(path, offset, content, _) => Field(path) + (BigEndian(offset, 8) + ([flags] + Field(content)))
    case Move(path, destination) => Field(path) + Field(destination)
    case _ => Field(q.path)
  }

  function BodyOf(q: Request): seq<Byte> {
    BodyWith(q, if q.Write? && q.truncate then TRUNCATE else 0)
  }

  function EncodeRequest(q: Request): seq<Byte> {
    Framed(MAGIC, Verb(q), BodyOf(q))
  }

  /** What the types of the fields guarantee. */
  predicate Typed(isPath: IsGuestPath, q: Request) {
    && (!q.Usage? && !q.Compute? ==> isPath(q.path) && |q.path| < 0x1_0000_0000)
    && (q.Move? ==> isPath(q.destination) && |q.destination| < 0x1_0000_0000)
    && (q.Read? ==> q.offset < Pow256(8) && q.length < Pow256(4))
    && (q.Write? ==> q.offset < Pow256(8) && |q.content| < 0x1_0000_0000)
  }

  function TakePath(isPath: IsGuestPath, bytes: seq<Byte>): Option<(GuestPath, seq<Byte>)> {
    var field := TakeField(bytes);
    if field.Some? && isPath(field.value.0) then field else None
  }

  function ReadFrom(path: GuestPath, rest: seq<Byte>): Option<Request> {
    var offset := TakeNumber(rest, 8);
    if offset.None? then None
    else
      var length := TakeNumber(offset.value.1, 4);
      if length.None? then None else Some(Read(path, offset.value.0, length.value.0))
  }

  function WriteFrom(path: GuestPath, rest: seq<Byte>): Option<Request> {
    var offset := TakeNumber(rest, 8);
    if offset.None? || offset.value.1 == [] then None
    else
      var content := TakeField(offset.value.1[1..]);
      if content.None? then None else Some(Write(path, offset.value.0, content.value.0, offset.value.1[0] == TRUNCATE))
  }

  function RequestFrom(isPath: IsGuestPath, verb: Byte, body: seq<Byte>): Option<Request> {
    if verb == 8 then Some(Usage)
    else if verb == 9 then Some(Compute)
    else if !(1 <= verb <= 7) then None
    else
      var path := TakePath(isPath, body);
      if path.None? then None
      else
        var (p, rest) := path.value;
        match verb
        case 1 => Some(List(p))
        case 2 => Some(Stat(p))
        case 3 => ReadFrom(p, rest)
        case 4 => WriteFrom(p, rest)
        case 5 => Some(MakeDirectory(p))
        case 6 => Some(Remove(p))
        case _ =>
          var destination := TakePath(isPath, rest);
          if destination.None? then None else Some(Move(p, destination.value.0))
  }

  function DecodeRequest(isPath: IsGuestPath, bytes: seq<Byte>): Option<Request> {
    if IsFrame(MAGIC, bytes)
        && |bytes| - FRAME_HEADER <= MAX_BODY then RequestFrom(isPath, bytes[4], bytes[FRAME_HEADER..])
    else None
  }

  class Cursor {
    const body: seq<Byte>
    var at: nat

    ghost predicate Valid()
      reads this
    {
      at <= |body|
    }

    ghost function Left(): seq<Byte>
      reads this
      requires Valid()
    {
      body[at..]
    }

    constructor (body: seq<Byte>)
      ensures Valid() && Left() == body
    {
      this.body := body;
      at := 0;
    }

    method Take(count: nat) returns (r: Option<seq<Byte>>)
      requires Valid()
      modifies this`at
      ensures Valid()
      ensures r.Some? <==> count <= |old(Left())|
      ensures if r.Some? then r.value == old(Left())[..count] && Left() == old(Left())[count..]
          else Left() == old(Left())
    {
      var end := at + count;
      if end > |body| {
        return None;
      }
      r := Some(body[at..end]);
      at := end;
    }

    method Number(width: nat) returns (r: Option<nat>)
      requires Valid()
      modifies this`at
      ensures Valid()
      ensures
        var taken := TakeNumber(old(Left()), width);
        if taken.Some? then r == Some(taken.value.0) && Left() == taken.value.1 else r == None
    {
      var bytes := Take(width);
      r := if bytes.None? then None else Some(FromBigEndian(bytes.value));
    }

    method TakenField() returns (r: Option<seq<Byte>>)
      requires Valid()
      modifies this`at
      ensures Valid()
      ensures
        var taken := TakeField(old(Left()));
        if taken.Some? then r == Some(taken.value.0) && Left() == taken.value.1 else r == None
    {
      var length := Number(4);
      if length.None? {
        return None;
      }
      r := Take(length.value);
    }

    method Path(isPath: IsGuestPath) returns (r: Option<GuestPath>)
      requires Valid()
      modifies this`at
      ensures Valid()
      ensures
        var taken := TakePath(isPath, old(Left()));
        if taken.Some? then r == Some(taken.value.0) && Left() == taken.value.1 else r == None
    {
      r := TakenField();
      if r.Some? && !isPath(r.value) {
        r := None;
      }
    }
  }

  method FinishRead(cursor: Cursor, path: GuestPath) returns (r: Option<Request>)
    requires cursor.Valid()
    modifies cursor
    ensures r == ReadFrom(path, old(cursor.Left()))
  {
    var offset := cursor.Number(8);
    if offset.None? {
      return None;
    }
    var length := cursor.Number(4);
    r := if length.None? then None else Some(Read(path, offset.value, length.value));
  }

  method FinishWrite(cursor: Cursor, path: GuestPath) returns (r: Option<Request>)
    requires cursor.Valid()
    modifies cursor
    ensures r == WriteFrom(path, old(cursor.Left()))
  {
    var offset := cursor.Number(8);
    if offset.None? {
      return None;
    }
    var flags := cursor.Take(1);
    if flags.None? {
      return None;
    }
    var content := cursor.TakenField();
    r := if content.None? then None else Some(Write(path, offset.value, content.value, flags.value[0] == TRUNCATE));
  }

  method ParseRequest(isPath: IsGuestPath, verb: Byte, body: seq<Byte>) returns (r: Option<Request>)
    ensures r == RequestFrom(isPath, verb, body)
  {
    if verb == 8 {
      return Some(Usage);
    }
    if verb == 9 {
      return Some(Compute);
    }
    if verb < 1 || verb > 9 {
      return None;
    }
    var cursor := new Cursor(body);
    var path := cursor.Path(isPath);
    if path.None? {
      return None;
    }
    match verb {
      case 1 => r := Some(List(path.value));
      case 2 => r := Some(Stat(path.value));
      case 3 => r := FinishRead(cursor, path.value);
      case 4 => r := FinishWrite(cursor, path.value);
      case 5 => r := Some(MakeDirectory(path.value));
      case 6 => r := Some(Remove(path.value));
      case _ =>
        var destination := cursor.Path(isPath);
        r := if destination.None? then None else Some(Move(path.value, destination.value));
    }
  }

  /** Flags stand for a truncating write exactly when they are the one value that says so. */
  predicate FlagsOf(q: Request, flags: Byte) {
    q.Write? ==> (q.truncate <==> flags == TRUNCATE)
  }

  lemma ReadReads(path: GuestPath, offset: nat, length: nat, tail: seq<Byte>)
    requires offset < Pow256(8) && length < Pow256(4)
    ensures ReadFrom(path, BigEndian(offset, 8) + BigEndian(length, 4) + tail) == Some(Read(path, offset, length))
  {
    var bytes := BigEndian(offset, 8) + BigEndian(length, 4) + tail;
    assert bytes == BigEndian(offset, 8) + (BigEndian(length, 4) + tail);
    TakeNumberExactly(bytes, 8, offset, BigEndian(length, 4) + tail);
    TakeNumberExactly(BigEndian(length, 4) + tail, 4, length, tail);
  }

  lemma WriteReads(path: GuestPath, offset: nat, content: seq<Byte>, flags: Byte, tail: seq<Byte>)
    requires offset < Pow256(8) && |content| < 0x1_0000_0000
    ensures WriteFrom(path, BigEndian(offset, 8) + ([flags] + Field(content)) + tail) ==
            Some(Write(path, offset, content, flags == TRUNCATE))
  {
    var bytes := BigEndian(offset, 8) + ([flags] + Field(content)) + tail;
    var rest := [flags] + Field(content) + tail;
    assert bytes == BigEndian(offset, 8) + rest;
    TakeNumberExactly(bytes, 8, offset, rest);
    FlagsThenField(flags, content, tail);
  }

  lemma FlagsThenField(flags: Byte, content: seq<Byte>, tail: seq<Byte>)
    requires |content| < 0x1_0000_0000
    ensures
      var rest := [flags] + Field(content) + tail;
      rest[0] == flags && TakeField(rest[1..]) == Some((content, tail))
  {
    var rest := [flags] + Field(content) + tail;
    assert rest[1..] == Field(content) + tail;
    TakeFieldExactly(rest[1..], content, tail);
  }

  lemma PathReads(path: GuestPath, more: seq<Byte>, tail: seq<Byte>)
    requires |path| < 0x1_0000_0000
    ensures TakeField(Field(path) + more + tail) == Some((path, more + tail))
  {
    assert Field(path) + more + tail == Field(path) + (more + tail);
    TakeFieldExactly(Field(path) + more + tail, path, more + tail);
  }

  lemma ReadRequestReads(isPath: IsGuestPath, q: Request, tail: seq<Byte>)
    requires q.Read? && Typed(isPath, q)
    ensures RequestFrom(isPath, 3, BodyWith(q, 0) + tail) == Some(q)
  {
    PathReads(q.path, BigEndian(q.offset, 8) + BigEndian(q.length, 4), tail);
    ReadReads(q.path, q.offset, q.length, tail);
  }

  lemma WriteRequestReads(isPath: IsGuestPath, q: Request, flags: Byte, tail: seq<Byte>)
    requires q.Write? && Typed(isPath, q) && FlagsOf(q, flags)
    ensures RequestFrom(isPath, 4, BodyWith(q, flags) + tail) == Some(q)
  {
    PathReads(q.path, BigEndian(q.offset, 8) + ([flags] + Field(q.content)), tail);
    WriteReads(q.path, q.offset, q.content, flags, tail);
  }

  lemma MoveRequestReads(isPath: IsGuestPath, q: Request, tail: seq<Byte>)
    requires q.Move? && Typed(isPath, q)
    ensures RequestFrom(isPath, 7, BodyWith(q, 0) + tail) == Some(q)
  {
    PathReads(q.path, Field(q.destination), tail);
    TakeFieldExactly(Field(q.destination) + tail, q.destination, tail);
  }

  /** Whatever follows the body, and whatever the flags say besides truncation, is not looked at. */
  lemma RequestReads(isPath: IsGuestPath, q: Request, flags: Byte, tail: seq<Byte>)
    requires Typed(isPath, q) && FlagsOf(q, flags)
    ensures RequestFrom(isPath, Verb(q), BodyWith(q, flags) + tail) == Some(q)
  {
    match q {
      case Usage =>
      case Compute =>
      case Read(_, _, _) => ReadRequestReads(isPath, q, tail);
      case Write(_, _, _, _) => WriteRequestReads(isPath, q, flags, tail);
      case Move(_, _) => MoveRequestReads(isPath, q, tail);
      case _ => TakeFieldExactly(Field(q.path) + tail, q.path, tail);
    }
  }

  lemma ReadWrote(path: GuestPath, rest: seq<Byte>) returns (tail: seq<Byte>)
    requires ReadFrom(path, rest).Some?
    ensures
      var q := ReadFrom(path, rest).value;
      q.offset < Pow256(8) && q.length < Pow256(4) && rest == BigEndian(q.offset, 8) + BigEndian(q.length, 4) + tail
  {
    var (offset, more) := TakeNumber(rest, 8).value;
    var (length, left) := TakeNumber(more, 4).value;
    TakeNumberFits(rest, 8);
    TakeNumberFits(more, 4);
    TakeNumberExactly(rest, 8, offset, more);
    TakeNumberExactly(more, 4, length, left);
    tail := left;
  }

  lemma FlaggedWrote(flags: Byte, bytes: seq<Byte>)
    requires TakeField(bytes).Some?
    ensures
      var (content, tail) := TakeField(bytes).value;
      |content| < 0x1_0000_0000 && [flags] + bytes == ([flags] + Field(content)) + tail
  {
    var (content, tail) := TakeField(bytes).value;
    TakeFieldFits(bytes);
    TakeFieldExactly(bytes, content, tail);
    Associates([flags], Field(content), tail);
  }

  lemma NumberedWrote(rest: seq<Byte>, first: seq<Byte>, tail: seq<Byte>)
    requires TakeNumber(rest, 8).Some? && TakeNumber(rest, 8).value.1 == first + tail
    ensures
      var offset := TakeNumber(rest, 8).value.0;
      offset < Pow256(8) && rest == BigEndian(offset, 8) + first + tail
  {
    var (offset, more) := TakeNumber(rest, 8).value;
    TakeNumberFits(rest, 8);
    TakeNumberExactly(rest, 8, offset, more);
    Associates(BigEndian(offset, 8), first, tail);
  }

  lemma WriteWrote(path: GuestPath, rest: seq<Byte>) returns (flags: Byte, tail: seq<Byte>)
    requires WriteFrom(path, rest).Some?
    ensures
      var q := WriteFrom(path, rest).value;
      && q.offset < Pow256(8) && |q.content| < 0x1_0000_0000 && FlagsOf(q, flags)
      && rest == BigEndian(q.offset, 8) + ([flags] + Field(q.content)) + tail
  {
    var (offset, more) := TakeNumber(rest, 8).value;
    flags := more[0];
    FlaggedWrote(flags, more[1..]);
    var (content, left) := TakeField(more[1..]).value;
    tail := left;
    assert more == [flags] + more[1..];
    NumberedWrote(rest, [flags] + Field(content), tail);
  }

  lemma PathWrote(isPath: IsGuestPath, body: seq<Byte>)
    requires TakePath(isPath, body).Some?
    ensures
      var (path, rest) := TakePath(isPath, body).value;
      isPath(path) && |path| < 0x1_0000_0000 && body == Field(path) + rest
  {
    var (path, rest) := TakeField(body).value;
    TakeFieldFits(body);
    TakeFieldExactly(body, path, rest);
  }

  lemma BeyondPath(path: GuestPath, rest: seq<Byte>, more: seq<Byte>, tail: seq<Byte>)
    requires rest == more + tail
    ensures Field(path) + rest == Field(path) + more + tail
  {
  }

  lemma RequestWrote(isPath: IsGuestPath, verb: Byte, body: seq<Byte>, q: Request)
      returns (flags: Byte, tail: seq<Byte>)
    requires RequestFrom(isPath, verb, body) == Some(q)
    ensures Verb(q) == verb && Typed(isPath, q) && FlagsOf(q, flags) && body == BodyWith(q, flags) + tail
  {
    flags, tail := 0, body;
    if 1 <= verb <= 7 {
      PathWrote(isPath, body);
      var (path, rest) := TakePath(isPath, body).value;
      tail := rest;
      if verb == 3 {
        tail := ReadWrote(path, rest);
        BeyondPath(path, rest, BigEndian(q.offset, 8) + BigEndian(q.length, 4), tail);
      } else if verb == 4 {
        flags, tail := WriteWrote(path, rest);
        BeyondPath(path, rest, BigEndian(q.offset, 8) + ([flags] + Field(q.content)), tail);
      } else if verb == 7 {
        PathWrote(isPath, rest);
        tail := TakePath(isPath, rest).value.1;
        BeyondPath(path, rest, Field(q.destination), tail);
      }
    }
  }

  /** Exactly what is read as a request: its body, any flags of the same meaning, and any tail. */
  lemma RequestExactly(isPath: IsGuestPath, verb: Byte, body: seq<Byte>, q: Request)
    ensures RequestFrom(isPath, verb, body) == Some(q) <==>
            && verb == Verb(q) && Typed(isPath, q)
            && exists flags: Byte, tail: seq<Byte> :: FlagsOf(q, flags) && body == BodyWith(q, flags) + tail
  {
    if RequestFrom(isPath, verb, body) == Some(q) {
      var flags, tail := RequestWrote(isPath, verb, body, q);
    }
    if verb == Verb(q) && Typed(isPath, q) {
      forall flags: Byte, tail: seq<Byte> | FlagsOf(q, flags) && body == BodyWith(q, flags) + tail
        ensures RequestFrom(isPath, verb, body) == Some(q)
      {
        RequestReads(isPath, q, flags, tail);
      }
    }
  }

  /** Every request that fits one frame is read back as itself, and one that does not is refused. */
  lemma RequestRoundTrip(isPath: IsGuestPath, q: Request)
    requires Typed(isPath, q) && |BodyOf(q)| < 0x1_0000_0000
    ensures DecodeRequest(isPath, EncodeRequest(q)) == if |BodyOf(q)| <= MAX_BODY then Some(q) else None
  {
    FrameExactly(MAGIC, EncodeRequest(q), Verb(q), BodyOf(q));
    RequestReads(isPath, q, if q.Write? && q.truncate then TRUNCATE else 0, []);
    assert BodyOf(q) + [] == BodyOf(q);
  }

  /** A request has more than one encoding: anything may follow its body. */
  lemma ManyEncodings(isPath: IsGuestPath, q: Request, tail: seq<Byte>)
    requires Typed(isPath, q) && tail != [] && |BodyOf(q) + tail| <= MAX_BODY
    ensures Framed(MAGIC, Verb(q), BodyOf(q) + tail) != EncodeRequest(q)
    ensures DecodeRequest(isPath, Framed(MAGIC, Verb(q), BodyOf(q) + tail)) == Some(q) ==
        DecodeRequest(isPath, EncodeRequest(q))
  {
    var body := BodyOf(q) + tail;
    FrameExactly(MAGIC, Framed(MAGIC, Verb(q), body), Verb(q), body);
    RequestReads(isPath, q, if q.Write? && q.truncate then TRUNCATE else 0, tail);
    RequestRoundTrip(isPath, q);
    assert |Framed(MAGIC, Verb(q), body)| != |EncodeRequest(q)|;
  }

  lemma UsageTwice(isPath: IsGuestPath)
    ensures DecodeRequest(isPath, Framed(MAGIC, 8, [])) == Some(Usage) == DecodeRequest(isPath, Framed(MAGIC, 8, [0]))
  {
    ManyEncodings(isPath, Usage, [0]);
    assert BodyOf(Usage) + [0] == [0];
  }

  /** The requests in figures. */
  lemma RequestLayout(q: Request)
    ensures
      var magic := [78, 66, 70, 49];
      EncodeRequest(q) ==
      match q
      case List(path) => Framed(magic, 1, Field(path))
      case Stat(path) => Framed(magic, 2, Field(path))
      case Read(path, offset, length) => Framed(magic, 3, Field(path) + (BigEndian(offset, 8) + BigEndian(length, 4)))
      case Write(path, offset, content, truncate) =>
        var flags := if truncate then 1 else 0;
        Framed(magic, 4, Field(path) + (BigEndian(offset, 8) + ([flags] + Field(content))))
      case MakeDirectory(path) => Framed(magic, 5, Field(path))
      case Remove(path) => Framed(magic, 6, Field(path))
      case Move(path, destination) => Framed(magic, 7, Field(path) + Field(destination))
      case Usage => Framed(magic, 8, [])
      case Compute => Framed(magic, 9, [])
  {
  }

  // Listings.

  type U64 = n: nat | n < 0x1_0000_0000_0000_0000
  type I64 = n: int | -0x8000_0000_0000_0000 <= n < 0x8000_0000_0000_0000

  datatype EntryKind = File | Directory | Other

  datatype Entry = Entry(name: seq<Byte>, kind: EntryKind, size: U64, seconds: I64)

  datatype Listing = Listing(entries: seq<Entry>, truncated: bool)

  predicate Encodable(e: Entry) {
    0 < |e.name| <= MAX_NAME
  }

  type Sendable = e: Entry | Encodable(e) witness Entry([0], File, 0, 0)

  function Size(e: Entry): nat {
    DETAILS + 1 + |e.name|
  }

  function Unsigned64(n: I64): nat {
    if n >= 0 then n else n + 0x1_0000_0000_0000_0000
  }

  function Signed64(n: nat): I64
    requires n < 0x1_0000_0000_0000_0000
  {
    if n < 0x8000_0000_0000_0000 then n else n - 0x1_0000_0000_0000_0000
  }

  function EntryBytes(e: Sendable): (bytes: seq<Byte>)
    ensures |bytes| == Size(e)
  {
    [if e.kind.File? then 1 else if e.kind.Directory? then 2 else 0]
    + BigEndian(e.size, 8) + BigEndian(Unsigned64(e.seconds), 8) + [|e.name|] + e.name
  }

  function NumberAt(bytes: seq<Byte>, at: nat): (n: U64)
    requires at + 8 <= |bytes|
  {
    Widths();
    FromBigEndianFits(bytes[at..at + 8]);
    FromBigEndian(bytes[at..at + 8])
  }

  function EntryFrom(lossy: seq<Byte> -> seq<Byte>, bytes: seq<Byte>): Entry
    requires |bytes| > DETAILS && DETAILS + 1 + bytes[DETAILS] <= |bytes|
  {
    Entry(
      lossy(bytes[DETAILS + 1..DETAILS + 1 + bytes[DETAILS]]),
      if bytes[0] == 1 then File else if bytes[0] == 2 then Directory else Other,
      NumberAt(bytes, 1),
      Signed64(NumberAt(bytes, 9)))
  }

  function Concat(entries: seq<Sendable>): seq<Byte> {
    if entries == [] then [] else EntryBytes(entries[0]) + Concat(entries[1..])
  }

  function EncodableOf(entries: seq<Entry>): seq<Sendable> {
    if entries == [] then []
    else if Encodable(entries[0]) then [entries[0]] + EncodableOf(entries[1..])
    else EncodableOf(entries[1..])
  }

  /** How many of the encodable entries one frame takes after `used` bytes. */
  function Fit(all: seq<Sendable>, used: nat): (n: nat)
    ensures n <= |all|
  {
    if all == [] || used + Size(all[0]) > MAX_BODY then 0 else 1 + Fit(all[1..], used + Size(all[0]))
  }

  /** The body sent for a listing: whether it is cut, then the entries that fit. */
  function Sent(all: seq<Sendable>): seq<Byte> {
    [if Fit(all, 1) < |all| then 1 else 0] + Concat(all[..Fit(all, 1)])
  }

  lemma EncodableFrom(entries: seq<Entry>, k: nat)
    requires k < |entries|
    ensures EncodableOf(entries[k..]) ==
            if Encodable(entries[k]) then [entries[k]] + EncodableOf(entries[k + 1..])
                else EncodableOf(entries[k + 1..])
  {
    assert entries[k..][0] == entries[k] && entries[k..][1..] == entries[k + 1..];
  }

  lemma FitFrom(all: seq<Sendable>, k: nat, used: nat)
    requires k < |all|
    ensures
      var after := used + Size(all[k]);
      Fit(all[k..], used) == if after > MAX_BODY then 0 else 1 + Fit(all[k + 1..], after)
  {
    assert all[k..][0] == all[k] && all[k..][1..] == all[k + 1..];
  }

  lemma ConcatFrom(all: seq<Sendable>, k: nat, n: nat)
    requires k < n <= |all|
    ensures Concat(all[k..n]) == EntryBytes(all[k]) + Concat(all[k + 1..n])
  {
    assert all[k..n][0] == all[k] && all[k..n][1..] == all[k + 1..n];
  }

  lemma ConcatAfter(all: seq<Sendable>, k: nat, n: nat, written: seq<Byte>)
    requires k < n <= |all|
    ensures written + Concat(all[k..n]) == (written + EntryBytes(all[k])) + Concat(all[k + 1..n])
  {
    ConcatFrom(all, k, n);
  }

  /** Where the writer stands before entry `i`: `k` of the `n` entries that fit are written. */
  ghost predicate Writing(entries: seq<Entry>, i: nat, k: nat, n: nat, written: seq<Byte>) {
    var all := EncodableOf(entries);
    && i <= |entries| && k <= n <= |all|
    && EncodableOf(entries[i..]) == all[k..]
    && written + Concat(all[k..n]) == Concat(all[..n])
    && n == k + Fit(all[k..], 1 + |written|)
    && 1 + |written| <= MAX_BODY
  }

  lemma WritingStarts(entries: seq<Entry>)
    ensures Writing(entries, 0, 0, Fit(EncodableOf(entries), 1), [])
  {
    var all := EncodableOf(entries);
    assert entries[0..] == entries && all[0..] == all;
    assert all[0..Fit(all, 1)] == all[..Fit(all, 1)];
    assert [] + Concat(all[..Fit(all, 1)]) == Concat(all[..Fit(all, 1)]);
  }

  lemma WritingSkips(entries: seq<Entry>, i: nat, k: nat, n: nat, written: seq<Byte>)
    requires i < |entries| && Writing(entries, i, k, n, written) && !Encodable(entries[i])
    ensures Writing(entries, i + 1, k, n, written)
  {
    EncodableFrom(entries, i);
  }

  lemma TailOf(all: seq<Sendable>, k: nat, e: Entry, rest: seq<Sendable>)
    requires k <= |all| && Encodable(e) && all[k..] == [e] + rest
    ensures k < |all| && all[k] == e && all[k + 1..] == rest
  {
    assert all[k..][0] == e && all[k..][1..] == all[k + 1..];
  }

  lemma NextEncodable(entries: seq<Entry>, i: nat, k: nat, n: nat, written: seq<Byte>)
    requires i < |entries| && Writing(entries, i, k, n, written) && Encodable(entries[i])
    ensures
      var all := EncodableOf(entries);
      && k < |all| && all[k] == entries[i] && EncodableOf(entries[i + 1..]) == all[k + 1..]
      && n == if 1 + |written| + Size(all[k]) > MAX_BODY then k
          else k + 1 + Fit(all[k + 1..], 1 + |written| + Size(all[k]))
  {
    var all := EncodableOf(entries);
    EncodableFrom(entries, i);
    TailOf(all, k, entries[i], EncodableOf(entries[i + 1..]));
    FitFrom(all, k, 1 + |written|);
  }

  lemma WritingFull(entries: seq<Entry>, i: nat, k: nat, n: nat, written: seq<Byte>)
    requires i < |entries| && Writing(entries, i, k, n, written) && Encodable(entries[i])
    requires 1 + |written| + Size(entries[i]) > MAX_BODY
    ensures n < |EncodableOf(entries)| && written == Concat(EncodableOf(entries)[..n])
  {
    NextEncodable(entries, i, k, n, written);
    NothingLeft(EncodableOf(entries), k, written);
  }

  lemma WritingAdds(entries: seq<Entry>, i: nat, k: nat, n: nat, written: seq<Byte>)
    requires i < |entries| && Writing(entries, i, k, n, written) && Encodable(entries[i])
    requires 1 + |written| + Size(entries[i]) <= MAX_BODY
    ensures Writing(entries, i + 1, k + 1, n, written + EntryBytes(entries[i]))
  {
    NextEncodable(entries, i, k, n, written);
    ConcatAfter(EncodableOf(entries), k, n, written);
  }

  lemma WritingEnds(entries: seq<Entry>, k: nat, n: nat, written: seq<Byte>)
    requires Writing(entries, |entries|, k, n, written)
    ensures n == |EncodableOf(entries)| && written == Concat(EncodableOf(entries)[..n])
  {
    assert entries[|entries|..] == [];
    NothingLeft(EncodableOf(entries), k, written);
  }

  lemma NothingLeft(all: seq<Sendable>, k: nat, written: seq<Byte>)
    requires k <= |all|
    ensures written + Concat(all[k..k]) == written
  {
    assert all[k..k] == [] && written + [] == written;
  }

  /** The writer: what it sends is the encodable entries up to the first that does not fit. */
  method EncodeListing(entries: seq<Entry>) returns (body: seq<Byte>)
    ensures body == Sent(EncodableOf(entries)) && |body| <= MAX_BODY
  {
    ghost var n, k := Fit(EncodableOf(entries), 1), 0;
    var written: seq<Byte> := [];
    WritingStarts(entries);
    for i := 0 to |entries|
      invariant Writing(entries, i, k, n, written)
    {
      var e := entries[i];
      if e.name == [] || |e.name| > MAX_NAME {
        WritingSkips(entries, i, k, n, written);
        continue;
      }
      if 1 + |written| + Size(e) > MAX_BODY {
        WritingFull(entries, i, k, n, written);
        return [1] + written;
      }
      WritingAdds(entries, i, k, n, written);
      written := written + EntryBytes(e);
      k := k + 1;
    }
    WritingEnds(entries, k, n, written);
    body := [0] + written;
  }

  // Reading a listing.

  /** What stands next in a listing: nothing, an entry cut short, or an entry and its length. */
  datatype Next = End | Cut | At(entry: Entry, length: nat)

  function NextOf(lossy: seq<Byte> -> seq<Byte>, bytes: seq<Byte>): (r: Next)
    ensures r.At? ==> 0 < r.length <= |bytes|
  {
    if bytes == [] then End
    else if |bytes| <= DETAILS then Cut
    else if bytes[DETAILS] == 0 || DETAILS + 1 + bytes[DETAILS] > |bytes| then Cut
    else At(EntryFrom(lossy, bytes), DETAILS + 1 + bytes[DETAILS])
  }

  predicate Hidden(atRoot: bool, e: Entry) {
    atRoot && e.name == LOST_AND_FOUND
  }

  /** What the reader shows of the entries in a body, when it has shown `shown` already. */
  function Shown(lossy: seq<Byte> -> seq<Byte>, atRoot: bool, bytes: seq<Byte>, shown: nat): Option<Listing>
    decreases |bytes|
  {
    match NextOf(lossy, bytes)
    case End => Some(Listing([], false))
    case Cut => None
    case At(e, length) =>
      if shown == ENTRY_LIMIT then Some(Listing([], true))
      else if Hidden(atRoot, e) then Shown(lossy, atRoot, bytes[length..], shown)
      else Before([e], Shown(lossy, atRoot, bytes[length..], shown + 1))
  }

  function Before(entries: seq<Entry>, later: Option<Listing>): Option<Listing> {
    if later.None? then None else Some(Listing(entries + later.value.entries, later.value.truncated))
  }

  lemma BeforeBoth(first: seq<Entry>, second: seq<Entry>, later: Option<Listing>)
    ensures Before(first, Before(second, later)) == Before(first + second, later)
    ensures Before([], later) == later
  {
    if later.Some? {
      assert first + (second + later.value.entries) == (first + second) + later.value.entries;
      assert [] + later.value.entries == later.value.entries;
    }
  }

  function Decoded(lossy: seq<Byte> -> seq<Byte>, atRoot: bool, body: seq<Byte>): Option<Listing> {
    if body == [] then None
    else
      var shown := Shown(lossy, atRoot, body[1..], 0);
      if shown.None? then None else Some(Listing(shown.value.entries, body[0] != 0 || shown.value.truncated))
  }

  method ReadEntry(lossy: seq<Byte> -> seq<Byte>, body: seq<Byte>, offset: nat) returns (r: Next)
    requires offset < |body|
    ensures r == NextOf(lossy, body[offset..])
  {
    var lengthAt := offset + DETAILS;
    if lengthAt >= |body| {
      return Cut;
    }
    var length := body[lengthAt];
    var nameAt := lengthAt + 1;
    if length == 0 || nameAt + length > |body| {
      return Cut;
    }
    r := At(EntryFrom(lossy, body[offset..]), DETAILS + 1 + length);
  }

  /** One turn of the reader. */
  lemma ShownTurn(lossy: seq<Byte> -> seq<Byte>, atRoot: bool, body: seq<Byte>, offset: nat, entries: seq<Entry>)
    requires offset < |body|
    ensures
      var next := NextOf(lossy, body[offset..]);
      Before(entries, Shown(lossy, atRoot, body[offset..], |entries|)) ==
      if next.Cut? then None
      else if |entries| == ENTRY_LIMIT then Some(Listing(entries, true))
      else if Hidden(atRoot, next.entry)
          then Before(entries, Shown(lossy, atRoot, body[offset + next.length..], |entries|))
      else Before(entries + [next.entry], Shown(lossy, atRoot, body[offset + next.length..], |entries| + 1))
  {
    var next := NextOf(lossy, body[offset..]);
    if next.At? {
      assert body[offset..][next.length..] == body[offset + next.length..];
      BeforeBoth(entries, [next.entry], Shown(lossy, atRoot, body[offset + next.length..], |entries| + 1));
      assert entries + [] == entries;
    }
  }

  lemma ShownEnd(lossy: seq<Byte> -> seq<Byte>, atRoot: bool, body: seq<Byte>, entries: seq<Entry>)
    ensures Before(entries, Shown(lossy, atRoot, body[|body|..], |entries|)) == Some(Listing(entries, false))
  {
    assert body[|body|..] == [] && entries + [] == entries;
  }

  /** What the reader still owes where it stands. */
  ghost function Owed(
    lossy: seq<Byte> -> seq<Byte>, atRoot: bool, body: seq<Byte>, offset: nat, entries: seq<Entry>): Option<Listing>
    requires offset <= |body|
  {
    Before(entries, Shown(lossy, atRoot, body[offset..], |entries|))
  }

  /** One turn: the loop ends with a result, or goes on from the next entry. */
  datatype Turn = Stop(result: Option<Listing>) | Go(entries: seq<Entry>, offset: nat)

  method ReadNext(lossy: seq<Byte> -> seq<Byte>, atRoot: bool, body: seq<Byte>, offset: nat, entries: seq<Entry>)
    returns (t: Turn)
    requires offset < |body|
    ensures t.Stop? ==> Owed(lossy, atRoot, body, offset, entries) == t.result
    ensures t.Go? ==>
              && offset < t.offset <= |body|
              && Owed(lossy, atRoot, body, offset, entries) == Owed(lossy, atRoot, body, t.offset, t.entries)
  {
    ShownTurn(lossy, atRoot, body, offset, entries);
    var next := ReadEntry(lossy, body, offset);
    if next.Cut? {
      return Stop(None);
    }
    if |entries| == ENTRY_LIMIT {
      return Stop(Some(Listing(entries, true)));
    }
    t := Go(if Hidden(atRoot, next.entry) then entries else entries + [next.entry], offset + next.length);
  }

  /** The loop of the reader, moving an offset over the body. */
  method ReadEntries(lossy: seq<Byte> -> seq<Byte>, atRoot: bool, body: seq<Byte>) returns (r: Option<Listing>)
    requires body != []
    ensures r == Shown(lossy, atRoot, body[1..], 0)
  {
    var entries: seq<Entry> := [];
    var offset := 1;
    ghost var all := Shown(lossy, atRoot, body[1..], 0);
    BeforeBoth([], [], all);
    while offset < |body|
      invariant 1 <= offset <= |body|
      invariant all == Owed(lossy, atRoot, body, offset, entries)
    {
      var turn := ReadNext(lossy, atRoot, body, offset, entries);
      if turn.Stop? {
        return turn.result;
      }
      entries, offset := turn.entries, turn.offset;
    }
    ShownEnd(lossy, atRoot, body, entries);
    r := Some(Listing(entries, false));
  }

  /** The reader: the loop, and the mark in the first byte. */
  method DecodeListing(lossy: seq<Byte> -> seq<Byte>, atRoot: bool, body: seq<Byte>) returns (r: Option<Listing>)
    ensures r == Decoded(lossy, atRoot, body)
  {
    if body == [] {
      return None;
    }
    r := ReadEntries(lossy, atRoot, body);
    if r.Some? {
      r := Some(Listing(r.value.entries, body[0] != 0 || r.value.truncated));
    }
  }

  lemma EntryReads(lossy: seq<Byte> -> seq<Byte>, e: Sendable, tail: seq<Byte>)
    requires lossy(e.name) == e.name
    ensures
      var bytes := EntryBytes(e) + tail;
      NextOf(lossy, bytes) == At(e, Size(e)) && bytes[Size(e)..] == tail
  {
    var bytes := EntryBytes(e) + tail;
    Widths();
    BigEndianRoundTrip(e.size, 8);
    BigEndianRoundTrip(Unsigned64(e.seconds), 8);
    assert bytes[1..9] == BigEndian(e.size, 8);
    assert bytes[9..17] == BigEndian(Unsigned64(e.seconds), 8);
    assert bytes[DETAILS] == |e.name|;
    assert bytes[DETAILS + 1..DETAILS + 1 + |e.name|] == e.name;
  }

  lemma EntryFields(kind: Byte, size: seq<Byte>, seconds: seq<Byte>, length: Byte, name: seq<Byte>, tail: seq<Byte>)
    requires |size| == 8 && |seconds| == 8 && length == |name|
    ensures
      var bytes := [kind] + size + seconds + [length] + name + tail;
      && bytes[0] == kind && bytes[1..9] == size && bytes[9..17] == seconds && bytes[17] == length
      && bytes[18..18 + |name|] == name
  {
  }

  /** What stands next in a listing, in figures: any kind of entry but 1 and 2 is read as something else. */
  lemma NextExactly(
    lossy: seq<Byte> -> seq<Byte>, kind: Byte, size: U64, word: U64, name: seq<Byte>, tail: seq<Byte>)
    requires 1 <= |name| <= 255
    ensures
      var bytes := [kind] + BigEndian(size, 8) + BigEndian(word, 8) + [|name|] + name + tail;
      var seconds := if word < 0x8000_0000_0000_0000 then word else word - 0x1_0000_0000_0000_0000;
      NextOf(lossy, bytes) ==
      At(Entry(lossy(name), if kind == 1 then File else if kind == 2 then Directory else Other, size, seconds),
          18 + |name|)
  {
    Widths();
    BigEndianRoundTrip(size, 8);
    BigEndianRoundTrip(word, 8);
    EntryFields(kind, BigEndian(size, 8), BigEndian(word, 8), |name|, name, tail);
  }

  /** A listing is cut short where what is left has no name's length, an empty name, or not all of its name. */
  lemma CutExactly(lossy: seq<Byte> -> seq<Byte>, bytes: seq<Byte>)
    ensures NextOf(lossy, bytes).End? <==> bytes == []
    ensures NextOf(lossy, bytes).Cut? <==>
            bytes != [] && (|bytes| < 18 || bytes[17] == 0 || |bytes| - 18 < bytes[17])
  {
  }

  /** Every name is text, so that repairing it changes nothing. */
  ghost predicate AllText(lossy: seq<Byte> -> seq<Byte>, all: seq<Entry>) {
    forall i :: 0 <= i < |all| ==> lossy(all[i].name) == all[i].name
  }

  lemma ShownCons(lossy: seq<Byte> -> seq<Byte>, atRoot: bool, e: Sendable, tail: seq<Byte>, shown: nat)
    requires lossy(e.name) == e.name
    ensures Shown(lossy, atRoot, EntryBytes(e) + tail, shown) ==
            if shown == ENTRY_LIMIT then Some(Listing([], true))
            else if Hidden(atRoot, e) then Shown(lossy, atRoot, tail, shown)
            else Before([e], Shown(lossy, atRoot, tail, shown + 1))
  {
    EntryReads(lossy, e, tail);
  }

  /** Entries shown one by one until the limit. */
  function Limited(atRoot: bool, sent: seq<Entry>, shown: nat): Option<Listing> {
    if sent == [] then Some(Listing([], false))
    else if shown == ENTRY_LIMIT then Some(Listing([], true))
    else if Hidden(atRoot, sent[0]) then Limited(atRoot, sent[1..], shown)
    else Before([sent[0]], Limited(atRoot, sent[1..], shown + 1))
  }

  function Visible(atRoot: bool, entries: seq<Entry>): (r: seq<Entry>)
    ensures !atRoot ==> r == entries
  {
    if entries == [] then []
    else if Hidden(atRoot, entries[0]) then Visible(atRoot, entries[1..])
    else [entries[0]] + Visible(atRoot, entries[1..])
  }

  /** How many of the sent entries are looked at before the limit ends it. */
  function Reach(atRoot: bool, sent: seq<Entry>, shown: nat): (k: nat)
    ensures k <= |sent|
  {
    if sent == [] || shown == ENTRY_LIMIT then 0
    else 1 + Reach(atRoot, sent[1..], if Hidden(atRoot, sent[0]) then shown else shown + 1)
  }

  /** What is shown is what is listed, in order, but at the root without "lost+found". */
  lemma {:induction false} VisibleExactly(atRoot: bool, before: seq<Entry>, e: Entry)
    ensures Visible(atRoot, before + [e]) == Visible(atRoot, before)
        + if atRoot && e.name == [108, 111, 115, 116, 43, 102, 111, 117, 110, 100] then [] else [e]
    decreases |before|
  {
    var all := before + [e];
    if before == [] {
      assert all == [e] && all[1..] == [];
    } else {
      assert all[0] == before[0] && all[1..] == before[1..] + [e];
      VisibleExactly(atRoot, before[1..], e);
    }
  }

  /** What is sent is what is listed, in order, but without names of no bytes or of more than 255. */
  lemma {:induction false} EncodableExactly(before: seq<Entry>, e: Entry)
    ensures EncodableOf(before + [e]) == EncodableOf(before) + if 1 <= |e.name| <= 255 then [e] else []
    decreases |before|
  {
    var all := before + [e];
    if before == [] {
      assert all == [e] && all[1..] == [];
    } else {
      assert all[0] == before[0] && all[1..] == before[1..] + [e];
      EncodableExactly(before[1..], e);
    }
  }

  lemma VisibleCons(atRoot: bool, sent: seq<Entry>, k: nat)
    requires 0 < k <= |sent|
    ensures
      var rest := Visible(atRoot, sent[1..][..k - 1]);
      Visible(atRoot, sent[..k]) == if Hidden(atRoot, sent[0]) then rest else [sent[0]] + rest
  {
    assert sent[..k][0] == sent[0] && sent[..k][1..] == sent[1..][..k - 1];
  }

  lemma {:induction false} LimitedIsStart(atRoot: bool, sent: seq<Entry>, shown: nat)
    requires shown <= ENTRY_LIMIT
    ensures
      var k := Reach(atRoot, sent, shown);
      && Limited(atRoot, sent, shown) == Some(Listing(Visible(atRoot, sent[..k]), k < |sent|))
      && shown + |Visible(atRoot, sent[..k])| <= ENTRY_LIMIT
      && (k < |sent| ==> shown + |Visible(atRoot, sent[..k])| == ENTRY_LIMIT)
    decreases |sent|
  {
    if sent != [] && shown < ENTRY_LIMIT {
      LimitedIsStart(atRoot, sent[1..], if Hidden(atRoot, sent[0]) then shown else shown + 1);
      VisibleCons(atRoot, sent, Reach(atRoot, sent, shown));
    }
  }

  /** The reader shows the sent entries in order, up to its limit. */
  lemma {:induction false} SentIsShown(
    lossy: seq<Byte> -> seq<Byte>, atRoot: bool, sent: seq<Sendable>, bytes: seq<Byte>, shown: nat)
    requires AllText(lossy, sent) && bytes == Concat(sent)
    ensures Shown(lossy, atRoot, bytes, shown) == Limited(atRoot, sent, shown)
    decreases |sent|
  {
    if sent != [] {
      var tail := Concat(sent[1..]);
      ShownCons(lossy, atRoot, sent[0], tail, shown);
      SentIsShown(lossy, atRoot, sent[1..], tail, if Hidden(atRoot, sent[0]) then shown else shown + 1);
    }
  }

  function Sizes(entries: seq<Entry>): nat {
    if entries == [] then 0 else Size(entries[0]) + Sizes(entries[1..])
  }

  lemma {:induction false} FitIsGreatest(all: seq<Sendable>, used: nat)
    requires used <= MAX_BODY
    ensures
      var n := Fit(all, used);
      && used + Sizes(all[..n]) <= MAX_BODY
      && (n < |all| ==> used + Sizes(all[..n + 1]) > MAX_BODY)
    decreases |all|
  {
    if all != [] {
      if used + Size(all[0]) > MAX_BODY {
        assert all[..1][0] == all[0];
      } else {
        FitIsGreatest(all[1..], used + Size(all[0]));
        var n := Fit(all, used);
        SizesCons(all, n);
        if n < |all| {
          SizesCons(all, n + 1);
        }
      }
    }
  }

  lemma SizesCons(all: seq<Entry>, n: nat)
    requires 0 < n <= |all|
    ensures Sizes(all[..n]) == Size(all[0]) + Sizes(all[1..][..n - 1])
  {
    assert all[..n][1..] == all[1..][..n - 1];
  }

  lemma {:induction false} EncodableText(lossy: seq<Byte> -> seq<Byte>, entries: seq<Entry>)
    requires AllText(lossy, entries)
    ensures AllText(lossy, EncodableOf(entries))
    decreases |entries|
  {
    if entries != [] {
      EncodableText(lossy, entries[1..]);
    }
  }

  lemma SentShows(lossy: seq<Byte> -> seq<Byte>, atRoot: bool, all: seq<Sendable>)
    requires AllText(lossy, all)
    ensures
      var body, n := Sent(all), Fit(all, 1);
      body != [] && body[0] == (if n < |all| then 1 else 0)
          && Shown(lossy, atRoot, body[1..], 0) == Limited(atRoot, all[..n], 0)
  {
    var sent := all[..Fit(all, 1)];
    assert Sent(all)[1..] == Concat(sent);
    SentIsShown(lossy, atRoot, sent, Concat(sent), 0);
  }

  lemma {:induction false} SizesGrow(all: seq<Entry>, m: nat, n: nat)
    requires m <= n <= |all|
    ensures Sizes(all[..m]) <= Sizes(all[..n])
    decreases |all|
  {
    if m > 0 {
      SizesCons(all, m);
      SizesCons(all, n);
      SizesGrow(all[1..], m - 1, n - 1);
    }
  }

  /** Before the limit ends it, fewer entries are shown than may be. */
  lemma {:induction false} ReachBelow(atRoot: bool, sent: seq<Entry>, shown: nat, i: nat)
    requires shown <= ENTRY_LIMIT && i < Reach(atRoot, sent, shown)
    ensures shown + |Visible(atRoot, sent[..i])| < ENTRY_LIMIT
    decreases |sent|
  {
    if i > 0 {
      ReachBelow(atRoot, sent[1..], if Hidden(atRoot, sent[0]) then shown else shown + 1, i - 1);
      VisibleCons(atRoot, sent, i);
    }
  }

  /** The listing ends before entry `k`: the frame cannot take it, or as many are shown as may be. */
  ghost predicate EndsBefore(atRoot: bool, all: seq<Entry>, k: nat)
    requires k < |all|
  {
    1 + Sizes(all[..k + 1]) > 65_536 || |Visible(atRoot, all[..k])| == 1000
  }

  /** The first place from `k` on where the listing ends. */
  ghost function EndFrom(atRoot: bool, all: seq<Entry>, k: nat): (n: nat)
    requires k <= |all|
    ensures k <= n <= |all| && (n < |all| ==> EndsBefore(atRoot, all, n))
    ensures forall i :: k <= i < n ==> !EndsBefore(atRoot, all, i)
    decreases |all| - k
  {
    if k == |all| || EndsBefore(atRoot, all, k) then k else EndFrom(atRoot, all, k + 1)
  }

  ghost function EndOf(atRoot: bool, all: seq<Entry>): (n: nat)
    ensures n <= |all|
  {
    EndFrom(atRoot, all, 0)
  }

  lemma EndIsFirst(atRoot: bool, all: seq<Entry>, n: nat)
    requires n <= |all| && (n < |all| ==> EndsBefore(atRoot, all, n))
    requires forall i :: 0 <= i < n ==> !EndsBefore(atRoot, all, i)
    ensures n == EndOf(atRoot, all)
  {
  }

  lemma GoesOn(atRoot: bool, all: seq<Sendable>, fit: nat, i: nat)
    requires fit <= |all| && 1 + Sizes(all[..fit]) <= MAX_BODY && i < Reach(atRoot, all[..fit], 0)
    ensures !EndsBefore(atRoot, all, i)
  {
    SizesGrow(all, i + 1, fit);
    ReachBelow(atRoot, all[..fit], 0, i);
    assert all[..fit][..i] == all[..i];
  }

  /** The writer and the reader between them go as far as that place. */
  lemma ReachIsEnd(atRoot: bool, all: seq<Sendable>)
    ensures Reach(atRoot, all[..Fit(all, 1)], 0) == EndOf(atRoot, all)
  {
    var fit := Fit(all, 1);
    var sent := all[..fit];
    var n := Reach(atRoot, sent, 0);
    FitIsGreatest(all, 1);
    LimitedIsStart(atRoot, sent, 0);
    assert sent[..n] == all[..n];
    forall i | 0 <= i < n ensures !EndsBefore(atRoot, all, i) {
      GoesOn(atRoot, all, fit, i);
    }
    EndIsFirst(atRoot, all, n);
  }

  lemma LimitedAtEnd(atRoot: bool, all: seq<Sendable>)
    ensures
      var fit, n := Fit(all, 1), EndOf(atRoot, all);
      && n <= fit
      && Limited(atRoot, all[..fit], 0) == Some(Listing(Visible(atRoot, all[..n]), n < fit))
      && |Visible(atRoot, all[..n])| <= ENTRY_LIMIT
  {
    var sent := all[..Fit(all, 1)];
    ReachIsEnd(atRoot, all);
    LimitedIsStart(atRoot, sent, 0);
    assert sent[..Reach(atRoot, sent, 0)] == all[..Reach(atRoot, sent, 0)];
  }

  lemma SentArrives(lossy: seq<Byte> -> seq<Byte>, atRoot: bool, all: seq<Sendable>)
    requires AllText(lossy, all)
    ensures
      var n := EndOf(atRoot, all);
      && Decoded(lossy, atRoot, Sent(all)) == Some(Listing(Visible(atRoot, all[..n]), n < |all|))
      && |Visible(atRoot, all[..n])| <= ENTRY_LIMIT
  {
    SentShows(lossy, atRoot, all);
    LimitedAtEnd(atRoot, all);
  }

  /**
   A listing arrives as the encodable entries before the first that the frame cannot take or that
   comes after as many as may be shown, with every name, kind, size and time, less what the root
   hides; it is marked truncated exactly when there is such an entry.
   */
  lemma ListingRoundTrip(lossy: seq<Byte> -> seq<Byte>, atRoot: bool, entries: seq<Entry>)
    requires AllText(lossy, entries)
    ensures
      var all := EncodableOf(entries);
      var n := EndOf(atRoot, all);
      && Decoded(lossy, atRoot, Sent(all)) == Some(Listing(Visible(atRoot, all[..n]), n < |all|))
      && (!atRoot ==> Visible(atRoot, all[..n]) == all[..n])
      && |Visible(atRoot, all[..n])| <= 1000
  {
    EncodableText(lossy, entries);
    SentArrives(lossy, atRoot, EncodableOf(entries));
  }

  /** The mark in terms of the entries alone: too many bytes, or an entry after as many as may be shown. */
  lemma MarkExactly(lossy: seq<Byte> -> seq<Byte>, atRoot: bool, entries: seq<Entry>)
    requires AllText(lossy, entries)
    ensures
      var all := EncodableOf(entries);
      var listing := Decoded(lossy, atRoot, Sent(all));
      && listing.Some?
      && (listing.value.truncated <==>
          1 + Sizes(all) > 65_536 || exists k :: 0 <= k < |all| && |Visible(atRoot, all[..k])| == 1000)
  {
    var all := EncodableOf(entries);
    ListingRoundTrip(lossy, atRoot, entries);
    EndsSomewhere(atRoot, all);
  }

  lemma EndsSomewhere(atRoot: bool, all: seq<Entry>)
    ensures EndOf(atRoot, all) < |all| <==>
            1 + Sizes(all) > 65_536 || exists k :: 0 <= k < |all| && |Visible(atRoot, all[..k])| == 1000
  {
    var n := EndOf(atRoot, all);
    assert all[..|all|] == all;
    if n < |all| {
      SizesGrow(all, n + 1, |all|);
      assert EndsBefore(atRoot, all, n);
    } else {
      forall k | 0 <= k < |all| ensures |Visible(atRoot, all[..k])| != 1000 {
        assert !EndsBefore(atRoot, all, k);
      }
      if |all| > 0 {
        assert !EndsBefore(atRoot, all, |all| - 1) && all[..|all| - 1 + 1] == all;
      }
    }
  }

  lemma {:induction false} VisibleConcat(atRoot: bool, a: seq<Entry>, b: seq<Entry>)
    ensures Visible(atRoot, a + b) == Visible(atRoot, a) + Visible(atRoot, b)
    decreases |a|
  {
    if a == [] {
      assert a + b == b;
    } else {
      assert (a + b)[0] == a[0] && (a + b)[1..] == a[1..] + b;
      VisibleConcat(atRoot, a[1..], b);
    }
  }

  lemma {:induction false} NothingVisible(atRoot: bool, entries: seq<Entry>)
    ensures Visible(atRoot, entries) == [] <==> forall i :: 0 <= i < |entries| ==> Hidden(atRoot, entries[i])
  {
    if entries != [] {
      NothingVisible(atRoot, entries[1..]);
      assert entries == [entries[0]] + entries[1..];
    }
  }

  lemma MissingExactly(atRoot: bool, all: seq<Entry>, n: nat)
    requires n <= |all|
    ensures Visible(atRoot, all[..n]) != Visible(atRoot, all) <==> exists i :: n <= i < |all| && !Hidden(atRoot, all[i])
  {
    var rest := all[n..];
    assert all == all[..n] + rest;
    VisibleConcat(atRoot, all[..n], rest);
    NothingVisible(atRoot, rest);
    if Visible(atRoot, rest) == [] {
      forall i | n <= i < |all| ensures Hidden(atRoot, all[i]) {
        assert rest[i - n] == all[i];
      }
    } else {
      var i :| 0 <= i < |rest| && !Hidden(atRoot, rest[i]);
      assert rest[i] == all[n + i];
    }
  }

  /** The mark says that something to be shown is missing, unless only hidden entries come after the end. */
  lemma MarkTruthful(lossy: seq<Byte> -> seq<Byte>, atRoot: bool, entries: seq<Entry>)
    requires AllText(lossy, entries)
    ensures
      var all := EncodableOf(entries);
      var listing, n := Decoded(lossy, atRoot, Sent(all)), EndOf(atRoot, all);
      && listing.Some?
      && ((listing.value.truncated <==> listing.value.entries != Visible(atRoot, all)) <==>
          n == |all| || exists i :: n <= i < |all| && !Hidden(atRoot, all[i]))
  {
    var all := EncodableOf(entries);
    var n := EndOf(atRoot, all);
    ListingRoundTrip(lossy, atRoot, entries);
    MissingExactly(atRoot, all, n);
  }

  // A root listing marked truncated though nothing that could be shown is missing.

  const COPY: Sendable := Entry([97], File, 0, 0)
  const LOST: Sendable := Entry(LOST_AND_FOUND, Directory, 0, 0)

  /** `n` entries that are shown, and then `lost+found`. */
  function CopiesThenLost(n: nat): (all: seq<Sendable>)
    ensures |all| == n + 1 && forall i :: 0 <= i < |all| ==> all[i] == if i < n then COPY else LOST
  {
    if n == 0 then [LOST] else [COPY] + CopiesThenLost(n - 1)
  }

  lemma {:induction false} CopiesFit(n: nat, used: nat)
    requires used + n * Size(COPY) + Size(LOST) <= MAX_BODY
    ensures Fit(CopiesThenLost(n), used) == n + 1
    decreases n
  {
    var all := CopiesThenLost(n);
    if n == 0 {
      assert all[1..] == [];
    } else {
      assert all[1..] == CopiesThenLost(n - 1);
      CopiesFit(n - 1, used + Size(COPY));
    }
  }

  lemma {:induction false} CopiesReach(n: nat, shown: nat)
    requires shown + n == ENTRY_LIMIT
    ensures Limited(true, CopiesThenLost(n), shown) == Some(Listing(CopiesThenLost(n)[..n], true))
    decreases n
  {
    var all := CopiesThenLost(n);
    if n > 0 {
      assert all[1..] == CopiesThenLost(n - 1);
      CopiesReach(n - 1, shown + 1);
      assert [COPY] + all[1..][..n - 1] == all[..n];
    }
  }

  /** As many entries as may be shown and `lost+found`: all of them arrive, marked truncated. */
  lemma MarkedWithNothingMissing(lossy: seq<Byte> -> seq<Byte>)
    requires lossy(COPY.name) == COPY.name && lossy(LOST.name) == LOST.name
    ensures
      var all := CopiesThenLost(ENTRY_LIMIT);
      && Visible(true, all) == all[..ENTRY_LIMIT]
      && Decoded(lossy, true, Sent(all)) == Some(Listing(Visible(true, all), true))
  {
    var all := CopiesThenLost(ENTRY_LIMIT);
    CopiesFit(ENTRY_LIMIT, 1);
    SentShows(lossy, true, all);
    assert all[..|all|] == all;
    CopiesReach(ENTRY_LIMIT, 0);
    CopiesVisible(ENTRY_LIMIT);
  }

  lemma {:induction false} CopiesVisible(n: nat)
    ensures Visible(true, CopiesThenLost(n)) == CopiesThenLost(n)[..n]
    decreases n
  {
    var all := CopiesThenLost(n);
    if n == 0 {
      assert all[1..] == [];
    } else {
      assert all[1..] == CopiesThenLost(n - 1);
      CopiesVisible(n - 1);
      assert [COPY] + all[1..][..n - 1] == all[..n];
    }
  }
}
