/** The generated encoders and decoders of four messages. A message is proved to decode to itself, and a
    decoder to give every sequence of well-formed fields, known or not, its meaning. String fields are the
    UTF-8 bytes of the strings. */
module Messages {
  import opened Wrappers
  import opened Wire
  import opened Fields

  datatype Timestamp = Timestamp(seconds: int, nanos: int)

  datatype ReservationInfo = ReservationInfo(
    id: seq<byte>, owner: seq<byte>, requestedPort: nat, assignedPort: nat, targetHost: seq<byte>,
    targetPort: nat, state: int, createdAt: Option<Timestamp>, updatedAt: Option<Timestamp>,
    leaseSeconds: Option<nat>, expiresAt: Option<Timestamp>)

  datatype ListResponse = ListResponse(reservations: seq<ReservationInfo>)

  datatype Identifier = ReservationId(reservationId: seq<byte>) | PortNumber(port: nat)

  datatype ReleaseRequest = ReleaseRequest(identifier: Option<Identifier>)

  const BASE_TIMESTAMP := Timestamp(0, 0)
  const BASE_RESERVATION := ReservationInfo([], [], 0, 0, [], 0, 0, None, None, None, None)
  const BASE_LIST := ListResponse([])
  const BASE_RELEASE := ReleaseRequest(None)

  // ---------------------------------------------------------------- what the fields say

  predicate IsInt32(n: int) {
    -(TWO_32 / 2) <= n < TWO_32 / 2
  }

  predicate IsTimestamp(t: Timestamp) {
    -(TWO_64 / 2) <= t.seconds < TWO_64 / 2 && IsInt32(t.nanos)
  }

  predicate IsReservation(r: ReservationInfo) {
    && |r.id| < TWO_32 && |r.owner| < TWO_32 && |r.targetHost| < TWO_32
    && r.requestedPort < TWO_32 && r.assignedPort < TWO_32 && r.targetPort < TWO_32 && IsInt32(r.state)
    && (r.createdAt.Some? ==> IsTimestamp(r.createdAt.value))
    && (r.updatedAt.Some? ==> IsTimestamp(r.updatedAt.value))
    && (r.leaseSeconds.Some? ==> r.leaseSeconds.value < TWO_32)
    && (r.expiresAt.Some? ==> IsTimestamp(r.expiresAt.value))
  }

  /** A reservation in a list must also not encode to more bytes than its length prefix can say. */
  predicate Fits(r: ReservationInfo) {
    IsReservation(r) && |Encoded(ReservationFields(r))| < TWO_32
  }

  predicate IsRelease(r: ReleaseRequest) {
    match r.identifier
    case None => true
    case Some(ReservationId(id)) => |id| < TWO_32
    case Some(PortNumber(port)) => port < TWO_32
  }

  /** Fields in the order they are written; defaults are left out. */
  function TimestampFields(t: Timestamp): seq<Field> {
    [] + Opt(t.seconds != 0, VarintField(8, Unsigned64(t.seconds)))
       + Opt(t.nanos != 0, VarintField(16, Unsigned64(t.nanos)))
  }

  function NestedTimestamp(tag: nat, t: Option<Timestamp>): Field {
    MessageField(tag, if t.Some? then TimestampFields(t.value) else [])
  }

  function ReservationFields(r: ReservationInfo): seq<Field> {
    TextAndPortFields(r) + Opt(r.createdAt.Some?, NestedTimestamp(66, r.createdAt))
    + Opt(r.updatedAt.Some?, NestedTimestamp(74, r.updatedAt))
    + Opt(r.leaseSeconds.Some?, VarintField(80, if r.leaseSeconds.Some? then r.leaseSeconds.value else 0))
    + Opt(r.expiresAt.Some?, NestedTimestamp(90, r.expiresAt))
  }

  function TextAndPortFields(r: ReservationInfo): seq<Field> {
    [] + Opt(r.id != [], BytesField(10, r.id)) + Opt(r.owner != [], BytesField(18, r.owner))
    + Opt(r.requestedPort != 0, VarintField(24, r.requestedPort))
    + Opt(r.assignedPort != 0, VarintField(32, r.assignedPort))
    + Opt(r.targetHost != [], BytesField(42, r.targetHost))
    + Opt(r.targetPort != 0, VarintField(48, r.targetPort))
    + Opt(r.state != 0, VarintField(56, Unsigned64(r.state)))
  }

  function ListFields(l: seq<ReservationInfo>): seq<Field> {
    Items(ListItem, l)
  }

  function ListItem(r: ReservationInfo): Field {
    MessageField(10, ReservationFields(r))
  }

  function ReleaseFields(r: ReleaseRequest): seq<Field> {
    match r.identifier
    case None => []
    case Some(ReservationId(id)) => [BytesField(10, id)]
    case Some(PortNumber(port)) => [VarintField(16, port)]
  }

  /** What one more field does to a message; a later field of the same tag wins. */
  function TimestampApply(t: Timestamp, f: Field): Timestamp {
    match f
    case VarintField(tag, n) =>
      if tag == 8 then t.(seconds := Signed(n % TWO_64, TWO_64))
      else if tag == 16 then t.(nanos := Signed(n % TWO_32, TWO_32))
      else t
    case _ => t
  }

  function ReservationApply(r: ReservationInfo, f: Field): ReservationInfo {
    match f
    case BytesField(tag, payload) =>
      if tag == 10 then r.(id := payload)
      else if tag == 18 then r.(owner := payload)
      else if tag == 42 then r.(targetHost := payload)
      else r
    case VarintField(tag, n) =>
      if tag == 24 then r.(requestedPort := n % TWO_32)
      else if tag == 32 then r.(assignedPort := n % TWO_32)
      else if tag == 48 then r.(targetPort := n % TWO_32)
      else if tag == 56 then r.(state := Signed(n % TWO_32, TWO_32))
      else if tag == 80 then r.(leaseSeconds := Some(n % TWO_32))
      else r
    case MessageField(tag, fields) =>
      if tag == 66 then r.(createdAt := Some(Fold(TimestampApply, BASE_TIMESTAMP, fields)))
      else if tag == 74 then r.(updatedAt := Some(Fold(TimestampApply, BASE_TIMESTAMP, fields)))
      else if tag == 90 then r.(expiresAt := Some(Fold(TimestampApply, BASE_TIMESTAMP, fields)))
      else r
  }

  function ListApply(l: ListResponse, f: Field): ListResponse {
    if f.MessageField? && f.tag == 10 then
      ListResponse(l.reservations + [Fold(ReservationApply, BASE_RESERVATION, f.fields)])
    else l
  }

  function ReleaseApply(r: ReleaseRequest, f: Field): ReleaseRequest {
    match f
    case BytesField(tag, payload) => if tag == 10 then ReleaseRequest(Some(ReservationId(payload))) else r
    case VarintField(tag, n) => if tag == 16 then ReleaseRequest(Some(PortNumber(n % TWO_32))) else r
    case _ => r
  }

  /** Well-formed fields that carry what their tag promises: text, or a nested message. */
  predicate ReservationField(f: Field) {
    WellFormed(f)
    && (f.tag in {10, 18, 42} ==> f.BytesField?)
    && (f.tag in {66, 74, 90} ==> f.MessageField?)
  }

  predicate ListField(f: Field) {
    WellFormed(f) && (f.tag == 10 ==> f.MessageField? && All(ReservationField, f.fields))
  }

  predicate ReleaseField(f: Field) {
    WellFormed(f) && (f.tag == 10 ==> f.BytesField?)
  }

  // ---------------------------------------------------------------- one turn of each decode loop

  function TimestampStep(buf: seq<byte>, pos: nat, t: Timestamp): (s: Step<Timestamp>)
    ensures match s case Continue(_, after) => pos < after <= |buf| case Stop(at) => pos < at <= |buf| case Fail => true
  {
    match ReadUint32(buf, pos)
    case None => Fail
    case Some((tag, p)) =>
      if tag == 8 then
        match ReadInt64(buf, p)
        case None => Fail
        case Some((n, after)) => Continue(t.(seconds := n), after)
      else if tag == 16 then
        match ReadInt32(buf, p)
        case None => Fail
        case Some((n, after)) => Continue(t.(nanos := n), after)
      else Unknown(buf, tag, p, t)
  }

  function ReservationText(r: ReservationInfo, tag: nat, payload: seq<byte>): ReservationInfo {
    if tag == 10 then r.(id := payload) else if tag == 18 then r.(owner := payload) else r.(targetHost := payload)
  }

  function ReservationNumber(r: ReservationInfo, tag: nat, n: nat): ReservationInfo {
    if tag == 24 then r.(requestedPort := n)
    else if tag == 32 then r.(assignedPort := n)
    else if tag == 48 then r.(targetPort := n)
    else r.(leaseSeconds := Some(n))
  }

  function ReservationTime(r: ReservationInfo, tag: nat, t: Timestamp): ReservationInfo {
    if tag == 66 then r.(createdAt := Some(t))
    else if tag == 74 then r.(updatedAt := Some(t))
    else r.(expiresAt := Some(t))
  }

  ghost function ReservationStep(buf: seq<byte>, pos: nat, r: ReservationInfo): (s: Step<ReservationInfo>)
    ensures match s case Continue(_, after) => pos < after <= |buf| case Stop(at) => pos < at <= |buf| case Fail => true
  {
    match ReadUint32(buf, pos)
    case None => Fail
    case Some((tag, p)) =>
      if tag == 10 || tag == 18 || tag == 42 then
        match ReadBytes(buf, p)
        case None => Fail
        case Some((payload, after)) => Continue(ReservationText(r, tag, payload), after)
      else if tag == 24 || tag == 32 || tag == 48 || tag == 80 then
        match ReadUint32(buf, p)
        case None => Fail
        case Some((n, after)) => Continue(ReservationNumber(r, tag, n), after)
      else if tag == 56 then
        match ReadInt32(buf, p)
        case None => Fail
        case Some((n, after)) => Continue(r.(state := n), after)
      else if tag == 66 || tag == 74 || tag == 90 then
        TimestampProgresses();
        NestedAdvances(TimestampStep, buf, p, BASE_TIMESTAMP);
        match Nested(TimestampStep, buf, p, BASE_TIMESTAMP)
        case None => Fail
        case Some((t, after)) => Continue(ReservationTime(r, tag, t), after)
      else Unknown(buf, tag, p, r)
  }

  ghost function ListStep(buf: seq<byte>, pos: nat, l: ListResponse): (s: Step<ListResponse>)
    ensures match s case Continue(_, after) => pos < after <= |buf| case Stop(at) => pos < at <= |buf| case Fail => true
  {
    match ReadUint32(buf, pos)
    case None => Fail
    case Some((tag, p)) =>
      if tag == 10 then
        ReservationProgresses();
        NestedAdvances(ReservationStep, buf, p, BASE_RESERVATION);
        match Nested(ReservationStep, buf, p, BASE_RESERVATION)
        case None => Fail
        case Some((r, after)) => Continue(ListResponse(l.reservations + [r]), after)
      else Unknown(buf, tag, p, l)
  }

  function ReleaseStep(buf: seq<byte>, pos: nat, r: ReleaseRequest): (s: Step<ReleaseRequest>)
    ensures match s case Continue(_, after) => pos < after <= |buf| case Stop(at) => pos < at <= |buf| case Fail => true
  {
    match ReadUint32(buf, pos)
    case None => Fail
    case Some((tag, p)) =>
      if tag == 10 then
        match ReadBytes(buf, p)
        case None => Fail
        case Some((payload, after)) => Continue(ReleaseRequest(Some(ReservationId(payload))), after)
      else if tag == 16 then
        match ReadUint32(buf, p)
        case None => Fail
        case Some((n, after)) => Continue(ReleaseRequest(Some(PortNumber(n))), after)
      else Unknown(buf, tag, p, r)
  }

  lemma TimestampProgresses()
    ensures Progresses(TimestampStep)
  {
    forall buf: seq<byte>, pos: nat, msg: Timestamp ensures TurnConsumes(TimestampStep, buf, pos, msg) {
    }
  }

  lemma ReservationProgresses()
    ensures Progresses(ReservationStep)
  {
    forall buf: seq<byte>, pos: nat, msg: ReservationInfo ensures TurnConsumes(ReservationStep, buf, pos, msg) {
    }
  }

  lemma ListProgresses()
    ensures Progresses(ListStep)
  {
    forall buf: seq<byte>, pos: nat, msg: ListResponse ensures TurnConsumes(ListStep, buf, pos, msg) {
    }
  }

  lemma ReleaseProgresses()
    ensures Progresses(ReleaseStep)
  {
    forall buf: seq<byte>, pos: nat, msg: ReleaseRequest ensures TurnConsumes(ReleaseStep, buf, pos, msg) {
    }
  }

  // ---------------------------------------------------------------- each turn finds the field's meaning

  lemma TimestampTurn(buf: seq<byte>, pos: nat, tag: nat, p: nat, t: Timestamp)
    requires ReadUint32(buf, pos) == Some((tag, p))
    ensures tag == 8 && ReadInt64(buf, p).Some? ==>
              var (n, after) := ReadInt64(buf, p).value;
              TimestampStep(buf, pos, t) == Continue(t.(seconds := n), after)
    ensures tag == 16 && ReadInt32(buf, p).Some? ==>
              var (n, after) := ReadInt32(buf, p).value;
              TimestampStep(buf, pos, t) == Continue(t.(nanos := n), after)
    ensures tag !in {8, 16} ==> TimestampStep(buf, pos, t) == Unknown(buf, tag, p, t)
  {
  }

  lemma TimestampStepReads(buf: seq<byte>, pos: nat, f: Field, t: Timestamp)
    requires WellFormed(f) && At(buf, pos, FieldBytes(f))
    ensures TimestampStep(buf, pos, t) == Continue(TimestampApply(t, f), pos + |FieldBytes(f)|)
  {
    TagIsRead(buf, pos, f);
    var p := pos + |Varint(f.tag)|;
    TimestampTurn(buf, pos, f.tag, p, t);
    if f.tag == 8 || f.tag == 16 {
      assert f.VarintField?;
      ReadWritten64(buf, p, f.value);
    } else {
      UnknownFieldIsSkipped(buf, p, f, t);
    }
  }

  lemma TimestampInterprets()
    ensures Interprets(TimestampStep, TimestampApply, WellFormed)
  {
    forall buf: seq<byte>, pos: nat, f: Field, msg: Timestamp
      ensures ReadsField(TimestampStep, TimestampApply, WellFormed, buf, pos, f, msg)
    {
      if WellFormed(f) && At(buf, pos, FieldBytes(f)) {
        TimestampStepReads(buf, pos, f, msg);
      }
    }
  }

  lemma ReservationTurn(buf: seq<byte>, pos: nat, tag: nat, p: nat, r: ReservationInfo)
    requires ReadUint32(buf, pos) == Some((tag, p))
    ensures tag in {10, 18, 42} && ReadBytes(buf, p).Some? ==>
              var (payload, after) := ReadBytes(buf, p).value;
              ReservationStep(buf, pos, r) == Continue(ReservationText(r, tag, payload), after)
    ensures tag in {24, 32, 48, 80} && ReadUint32(buf, p).Some? ==>
              var (n, after) := ReadUint32(buf, p).value;
              ReservationStep(buf, pos, r) == Continue(ReservationNumber(r, tag, n), after)
    ensures tag == 56 && ReadInt32(buf, p).Some? ==>
              var (n, after) := ReadInt32(buf, p).value;
              ReservationStep(buf, pos, r) == Continue(r.(state := n), after)
    ensures tag !in {10, 18, 24, 32, 42, 48, 56, 66, 74, 80, 90} ==>
              ReservationStep(buf, pos, r) == Unknown(buf, tag, p, r)
  {
  }

  lemma ReservationTimeTurn(buf: seq<byte>, pos: nat, tag: nat, p: nat, r: ReservationInfo)
    requires ReadUint32(buf, pos) == Some((tag, p)) && tag in {66, 74, 90} && Progresses(TimestampStep)
    ensures Nested(TimestampStep, buf, p, BASE_TIMESTAMP).Some? ==>
              var nested := Nested(TimestampStep, buf, p, BASE_TIMESTAMP).value;
              ReservationStep(buf, pos, r) == Continue(ReservationTime(r, tag, nested.0), nested.1)
  {
  }

  lemma ReservationTimeReads(buf: seq<byte>, pos: nat, f: Field, r: ReservationInfo)
    requires ReservationField(f) && At(buf, pos, FieldBytes(f)) && f.tag in {66, 74, 90}
    ensures ReservationStep(buf, pos, r) == Continue(ReservationApply(r, f), pos + |FieldBytes(f)|)
  {
    TagIsRead(buf, pos, f);
    var p := pos + |Varint(f.tag)|;
    NestedTimestampReads(buf, p, f);
    ReservationTimeTurn(buf, pos, f.tag, p, r);
  }

  lemma NestedTimestampReads(buf: seq<byte>, p: nat, f: Field)
    requires f.MessageField? && WellFormed(f) && At(buf, p, Body(f))
    ensures Progresses(TimestampStep)
    ensures Nested(TimestampStep, buf, p, BASE_TIMESTAMP)
         == Some((Fold(TimestampApply, BASE_TIMESTAMP, f.fields), p + |Body(f)|))
  {
    TimestampProgresses();
    TimestampInterprets();
    WellFormedFieldsAreAccepted(f.fields);
    NestedReads(TimestampStep, TimestampApply, WellFormed, buf, p, f.fields, BASE_TIMESTAMP);
  }

  lemma ReservationTextReads(buf: seq<byte>, pos: nat, f: Field, r: ReservationInfo)
    requires ReservationField(f) && At(buf, pos, FieldBytes(f)) && f.tag in {10, 18, 42}
    ensures ReservationStep(buf, pos, r) == Continue(ReservationApply(r, f), pos + |FieldBytes(f)|)
  {
    TagIsRead(buf, pos, f);
    var p := pos + |Varint(f.tag)|;
    ReadWrittenBytes(buf, p, f.payload);
    ReservationTurn(buf, pos, f.tag, p, r);
  }

  lemma ReservationNumberReads(buf: seq<byte>, pos: nat, f: Field, r: ReservationInfo)
    requires ReservationField(f) && At(buf, pos, FieldBytes(f)) && f.tag in {24, 32, 48, 56, 80}
    ensures ReservationStep(buf, pos, r) == Continue(ReservationApply(r, f), pos + |FieldBytes(f)|)
  {
    TagIsRead(buf, pos, f);
    var p := pos + |Varint(f.tag)|;
    assert f.VarintField?;
    ReadWritten64(buf, p, f.value);
    ReservationTurn(buf, pos, f.tag, p, r);
  }

  lemma ReservationStepReads(buf: seq<byte>, pos: nat, f: Field, r: ReservationInfo)
    requires ReservationField(f) && At(buf, pos, FieldBytes(f))
    ensures ReservationStep(buf, pos, r) == Continue(ReservationApply(r, f), pos + |FieldBytes(f)|)
  {
    if f.tag in {66, 74, 90} {
      ReservationTimeReads(buf, pos, f, r);
    } else if f.tag in {10, 18, 42} {
      ReservationTextReads(buf, pos, f, r);
    } else if f.tag in {24, 32, 48, 56, 80} {
      ReservationNumberReads(buf, pos, f, r);
    } else {
      TagIsRead(buf, pos, f);
      var p := pos + |Varint(f.tag)|;
      ReservationTurn(buf, pos, f.tag, p, r);
      UnknownFieldIsSkipped(buf, p, f, r);
    }
  }

  lemma ReservationInterprets()
    ensures Interprets(ReservationStep, ReservationApply, ReservationField)
  {
    forall buf: seq<byte>, pos: nat, f: Field, msg: ReservationInfo
      ensures ReadsField(ReservationStep, ReservationApply, ReservationField, buf, pos, f, msg)
    {
      if ReservationField(f) && At(buf, pos, FieldBytes(f)) {
        ReservationStepReads(buf, pos, f, msg);
      }
    }
  }

  lemma ListStepReads(buf: seq<byte>, pos: nat, f: Field, l: ListResponse)
    requires ListField(f) && At(buf, pos, FieldBytes(f))
    ensures ListStep(buf, pos, l) == Continue(ListApply(l, f), pos + |FieldBytes(f)|)
  {
    TagIsRead(buf, pos, f);
    var p := pos + |Varint(f.tag)|;
    if f.tag == 10 {
      ReservationProgresses();
      ReservationInterprets();
      NestedReads(ReservationStep, ReservationApply, ReservationField, buf, p, f.fields, BASE_RESERVATION);
    } else {
      UnknownFieldIsSkipped(buf, p, f, l);
    }
  }

  lemma ListInterprets()
    ensures Interprets(ListStep, ListApply, ListField)
  {
    forall buf: seq<byte>, pos: nat, f: Field, msg: ListResponse
      ensures ReadsField(ListStep, ListApply, ListField, buf, pos, f, msg)
    {
      if ListField(f) && At(buf, pos, FieldBytes(f)) {
        ListStepReads(buf, pos, f, msg);
      }
    }
  }

  lemma ReleaseStepReads(buf: seq<byte>, pos: nat, f: Field, r: ReleaseRequest)
    requires ReleaseField(f) && At(buf, pos, FieldBytes(f))
    ensures ReleaseStep(buf, pos, r) == Continue(ReleaseApply(r, f), pos + |FieldBytes(f)|)
  {
    TagIsRead(buf, pos, f);
    var p := pos + |Varint(f.tag)|;
    if f.tag == 10 {
      ReadWrittenBytes(buf, p, f.payload);
    } else if f.tag == 16 {
      ReadWritten64(buf, p, f.value);
    } else {
      UnknownFieldIsSkipped(buf, p, f, r);
    }
  }

  lemma ReleaseInterprets()
    ensures Interprets(ReleaseStep, ReleaseApply, ReleaseField)
  {
    forall buf: seq<byte>, pos: nat, f: Field, msg: ReleaseRequest
      ensures ReadsField(ReleaseStep, ReleaseApply, ReleaseField, buf, pos, f, msg)
    {
      if ReleaseField(f) && At(buf, pos, FieldBytes(f)) {
        ReleaseStepReads(buf, pos, f, msg);
      }
    }
  }

  // ---------------------------------------------------------------- the decoders, on whole buffers

  /** The result of `decode` on a buffer; None when the reader throws. */
  ghost function TimestampOf(buf: seq<byte>): Option<Timestamp> {
    TimestampProgresses();
    match Loop(TimestampStep, buf, 0, |buf|, BASE_TIMESTAMP) case None => None case Some((t, _)) => Some(t)
  }

  ghost function ReservationOf(buf: seq<byte>): Option<ReservationInfo> {
    ReservationProgresses();
    match Loop(ReservationStep, buf, 0, |buf|, BASE_RESERVATION) case None => None case Some((r, _)) => Some(r)
  }

  ghost function ListOf(buf: seq<byte>): Option<ListResponse> {
    ListProgresses();
    match Loop(ListStep, buf, 0, |buf|, BASE_LIST) case None => None case Some((l, _)) => Some(l)
  }

  ghost function ReleaseOf(buf: seq<byte>): Option<ReleaseRequest> {
    ReleaseProgresses();
    match Loop(ReleaseStep, buf, 0, |buf|, BASE_RELEASE) case None => None case Some((r, _)) => Some(r)
  }

  /** A decoder gives every sequence of well-formed fields, known or unknown, its meaning. */
  lemma TimestampOfFields(fs: seq<Field>)
    requires All(WellFormed, fs)
    ensures TimestampOf(Encoded(fs)) == Some(Fold(TimestampApply, BASE_TIMESTAMP, fs))
  {
    TimestampProgresses();
    TimestampInterprets();
    LoopReads(TimestampStep, TimestampApply, WellFormed, Encoded(fs), 0, fs, BASE_TIMESTAMP);
  }

  lemma ReservationOfFields(fs: seq<Field>)
    requires All(ReservationField, fs)
    ensures ReservationOf(Encoded(fs)) == Some(Fold(ReservationApply, BASE_RESERVATION, fs))
  {
    ReservationProgresses();
    ReservationInterprets();
    LoopReads(ReservationStep, ReservationApply, ReservationField, Encoded(fs), 0, fs, BASE_RESERVATION);
  }

  lemma ListOfFields(fs: seq<Field>)
    requires All(ListField, fs)
    ensures ListOf(Encoded(fs)) == Some(Fold(ListApply, BASE_LIST, fs))
  {
    ListProgresses();
    ListInterprets();
    LoopReads(ListStep, ListApply, ListField, Encoded(fs), 0, fs, BASE_LIST);
  }

  lemma ReleaseOfFields(fs: seq<Field>)
    requires All(ReleaseField, fs)
    ensures ReleaseOf(Encoded(fs)) == Some(Fold(ReleaseApply, BASE_RELEASE, fs))
  {
    ReleaseProgresses();
    ReleaseInterprets();
    LoopReads(ReleaseStep, ReleaseApply, ReleaseField, Encoded(fs), 0, fs, BASE_RELEASE);
  }

  // ---------------------------------------------------------------- a message's fields mean the message

  lemma TimestampMeansItself(t: Timestamp)
    requires IsTimestamp(t)
    ensures All(WellFormed, TimestampFields(t))
    ensures Fold(TimestampApply, BASE_TIMESTAMP, TimestampFields(t)) == t
  {
    SignedRoundTrip(t.seconds);
    SignedRoundTrip(t.nanos);
    var m1 := BASE_TIMESTAMP.(seconds := t.seconds);
    var f1 := AddOpt(TimestampApply, WellFormed, BASE_TIMESTAMP, [], BASE_TIMESTAMP,
                     t.seconds != 0, VarintField(8, Unsigned64(t.seconds)), m1);
    var f2 := AddOpt(TimestampApply, WellFormed, BASE_TIMESTAMP, f1, m1,
                     t.nanos != 0, VarintField(16, Unsigned64(t.nanos)), t);
  }

  lemma TimestampIsShort(t: Timestamp)
    ensures |Encoded(TimestampFields(t))| <= 22
  {
    var first, second := VarintField(8, Unsigned64(t.seconds)), VarintField(16, Unsigned64(t.nanos));
    EncodedOpt([], t.seconds != 0, first);
    EncodedOpt([] + Opt(t.seconds != 0, first), t.nanos != 0, second);
    TenBytesHold64Bits();
    VarintLength(first.value, 10);
    VarintLength(second.value, 10);
  }

  lemma {:induction false} VarintLength(n: nat, budget: nat)
    requires n < Pow128(budget) && budget >= 1
    ensures |Varint(n)| <= budget
    decreases budget
  {
    if n >= 128 {
      VarintLength(n / 128, budget - 1);
    }
  }

  lemma NestedTimestampMeansItself(tag: nat, t: Option<Timestamp>)
    requires t.Some? ==> IsTimestamp(t.value)
    requires tag in {66, 74, 90}
    ensures t.Some? ==> ReservationField(NestedTimestamp(tag, t))
    ensures t.Some? ==> Fold(TimestampApply, BASE_TIMESTAMP, NestedTimestamp(tag, t).fields) == t.value
  {
    if t.Some? {
      TimestampMeansItself(t.value);
      TimestampIsShort(t.value);
      WellFormedFieldsAreAccepted(TimestampFields(t.value));
    }
  }

  lemma AddReservationField(fs: seq<Field>, m: ReservationInfo, present: bool, f: Field, m': ReservationInfo)
    returns (gs: seq<Field>)
    requires All(ReservationField, fs) && Fold(ReservationApply, BASE_RESERVATION, fs) == m
    requires if present then ReservationField(f) && ReservationApply(m, f) == m' else m == m'
    ensures gs == fs + Opt(present, f)
    ensures All(ReservationField, gs) && Fold(ReservationApply, BASE_RESERVATION, gs) == m'
  {
    gs := AddOpt(ReservationApply, ReservationField, BASE_RESERVATION, fs, m, present, f, m');
  }

  lemma FirstFields(r: ReservationInfo) returns (fs: seq<Field>, m: ReservationInfo)
    requires IsReservation(r)
    ensures fs == [] + Opt(r.id != [], BytesField(10, r.id)) + Opt(r.owner != [], BytesField(18, r.owner))
                  + Opt(r.requestedPort != 0, VarintField(24, r.requestedPort))
                  + Opt(r.assignedPort != 0, VarintField(32, r.assignedPort))
    ensures m == BASE_RESERVATION.(id := r.id, owner := r.owner, requestedPort := r.requestedPort,
                                   assignedPort := r.assignedPort)
    ensures All(ReservationField, fs) && Fold(ReservationApply, BASE_RESERVATION, fs) == m
  {
    var m1 := BASE_RESERVATION.(id := r.id);
    var m2 := m1.(owner := r.owner);
    var m3 := m2.(requestedPort := r.requestedPort);
    m := m3.(assignedPort := r.assignedPort);
    fs := AddReservationField([], BASE_RESERVATION, r.id != [], BytesField(10, r.id), m1);
    fs := AddReservationField(fs, m1, r.owner != [], BytesField(18, r.owner), m2);
    fs := AddReservationField(fs, m2, r.requestedPort != 0, VarintField(24, r.requestedPort), m3);
    fs := AddReservationField(fs, m3, r.assignedPort != 0, VarintField(32, r.assignedPort), m);
  }

  lemma TextAndPortsMeanThemselves(r: ReservationInfo) returns (m: ReservationInfo)
    requires IsReservation(r)
    ensures m == r.(createdAt := None, updatedAt := None, leaseSeconds := None, expiresAt := None)
    ensures All(ReservationField, TextAndPortFields(r))
    ensures Fold(ReservationApply, BASE_RESERVATION, TextAndPortFields(r)) == m
  {
    SignedRoundTrip(r.state);
    var fs, m4 := FirstFields(r);
    var m5 := m4.(targetHost := r.targetHost);
    var m6 := m5.(targetPort := r.targetPort);
    m := m6.(state := r.state);
    fs := AddReservationField(fs, m4, r.targetHost != [], BytesField(42, r.targetHost), m5);
    fs := AddReservationField(fs, m5, r.targetPort != 0, VarintField(48, r.targetPort), m6);
    fs := AddReservationField(fs, m6, r.state != 0, VarintField(56, Unsigned64(r.state)), m);
  }

  lemma AddTimestamp(fs: seq<Field>, m: ReservationInfo, tag: nat, t: Option<Timestamp>, m': ReservationInfo)
    returns (gs: seq<Field>)
    requires All(ReservationField, fs) && Fold(ReservationApply, BASE_RESERVATION, fs) == m
    requires tag in {66, 74, 90} && (t.Some? ==> IsTimestamp(t.value))
    requires m' == if t.Some? then ReservationTime(m, tag, t.value) else m
    ensures gs == fs + Opt(t.Some?, NestedTimestamp(tag, t))
    ensures All(ReservationField, gs) && Fold(ReservationApply, BASE_RESERVATION, gs) == m'
  {
    NestedTimestampMeansItself(tag, t);
    gs := AddReservationField(fs, m, t.Some?, NestedTimestamp(tag, t), m');
  }

  lemma AddStamps(r: ReservationInfo, fs: seq<Field>, m: ReservationInfo)
    returns (gs: seq<Field>, m': ReservationInfo)
    requires IsReservation(r) && m.createdAt.None? && m.updatedAt.None?
    requires All(ReservationField, fs) && Fold(ReservationApply, BASE_RESERVATION, fs) == m
    ensures gs == fs + Opt(r.createdAt.Some?, NestedTimestamp(66, r.createdAt))
                  + Opt(r.updatedAt.Some?, NestedTimestamp(74, r.updatedAt))
    ensures m' == m.(createdAt := r.createdAt, updatedAt := r.updatedAt)
    ensures All(ReservationField, gs) && Fold(ReservationApply, BASE_RESERVATION, gs) == m'
  {
    var m1 := m.(createdAt := r.createdAt);
    m' := m1.(updatedAt := r.updatedAt);
    gs := AddTimestamp(fs, m, 66, r.createdAt, m1);
    gs := AddTimestamp(gs, m1, 74, r.updatedAt, m');
  }

  lemma ReservationMeansItself(r: ReservationInfo)
    requires IsReservation(r)
    ensures All(ReservationField, ReservationFields(r))
    ensures Fold(ReservationApply, BASE_RESERVATION, ReservationFields(r)) == r
  {
    var m7 := TextAndPortsMeanThemselves(r);
    var fs, m9 := AddStamps(r, TextAndPortFields(r), m7);
    var m10 := m9.(leaseSeconds := r.leaseSeconds);
    fs := AddReservationField(fs, m9, r.leaseSeconds.Some?,
                              VarintField(80, if r.leaseSeconds.Some? then r.leaseSeconds.value else 0), m10);
    fs := AddTimestamp(fs, m10, 90, r.expiresAt, r);
  }

  lemma ListItemIsField(r: ReservationInfo, before: seq<ReservationInfo>)
    requires Fits(r)
    ensures ListField(ListItem(r))
    ensures ListApply(ListResponse(before), ListItem(r)) == ListResponse(before + [r])
  {
    ReservationMeansItself(r);
    ReservationFieldsAreWellFormed(ReservationFields(r));
  }

  lemma {:induction false} ReservationFieldsAreWellFormed(fs: seq<Field>)
    requires All(ReservationField, fs)
    ensures AllWellFormed(fs)
    decreases |fs|
  {
    if fs != [] {
      ReservationFieldsAreWellFormed(fs[1..]);
    }
  }

  lemma {:induction false} WellFormedFieldsAreAccepted(fs: seq<Field>)
    ensures AllWellFormed(fs) <==> All(WellFormed, fs)
    decreases |fs|
  {
    if fs != [] {
      WellFormedFieldsAreAccepted(fs[1..]);
    }
  }

  function ListOfReservations(l: seq<ReservationInfo>): ListResponse {
    ListResponse(l)
  }

  lemma ListMeansItself(l: seq<ReservationInfo>, before: seq<ReservationInfo>)
    requires AllFit(Fits, l)
    ensures All(ListField, ListFields(l))
    ensures Fold(ListApply, ListResponse(before), ListFields(l)) == ListResponse(before + l)
  {
    forall r: ReservationInfo, b: seq<ReservationInfo>
      ensures AppendsItem(ListApply, ListField, ListItem, ListOfReservations, Fits, r, b)
    {
      if Fits(r) {
        ListItemIsField(r, b);
      }
    }
    FoldItems(ListApply, ListField, ListItem, ListOfReservations, Fits, l, before);
  }

  // ---------------------------------------------------------------- defaults are left out

  function Tags(fs: seq<Field>): set<nat> {
    set f | f in fs :: f.tag
  }

  function If(present: bool, tag: nat): set<nat> {
    if present then {tag} else {}
  }

  lemma TagsOfOpt(fs: seq<Field>, present: bool, f: Field)
    ensures Tags(fs + Opt(present, f)) == Tags(fs) + If(present, f.tag)
  {
  }

  /** What is written of a reservation is exactly what differs from a default, an optional field if it is there. */
  lemma OnlyNonDefaultsAreWritten(r: ReservationInfo)
    ensures Tags(ReservationFields(r))
         == If(r.id != [], Key(1, LENGTH_DELIMITED)) + If(r.owner != [], Key(2, LENGTH_DELIMITED))
            + If(r.requestedPort != 0, Key(3, VARINT)) + If(r.assignedPort != 0, Key(4, VARINT))
            + If(r.targetHost != [], Key(5, LENGTH_DELIMITED)) + If(r.targetPort != 0, Key(6, VARINT))
            + If(r.state != 0, Key(7, VARINT))
            + If(r.createdAt.Some?, Key(8, LENGTH_DELIMITED)) + If(r.updatedAt.Some?, Key(9, LENGTH_DELIMITED))
            + If(r.leaseSeconds.Some?, Key(10, VARINT)) + If(r.expiresAt.Some?, Key(11, LENGTH_DELIMITED))
  {
    TextAndPortTags(r);
    var a := TextAndPortFields(r);
    var b := a + Opt(r.createdAt.Some?, NestedTimestamp(66, r.createdAt));
    var c := b + Opt(r.updatedAt.Some?, NestedTimestamp(74, r.updatedAt));
    var lease := VarintField(80, if r.leaseSeconds.Some? then r.leaseSeconds.value else 0);
    TagsOfOpt(a, r.createdAt.Some?, NestedTimestamp(66, r.createdAt));
    TagsOfOpt(b, r.updatedAt.Some?, NestedTimestamp(74, r.updatedAt));
    TagsOfOpt(c, r.leaseSeconds.Some?, lease);
    TagsOfOpt(c + Opt(r.leaseSeconds.Some?, lease), r.expiresAt.Some?, NestedTimestamp(90, r.expiresAt));
  }

  lemma TextAndPortTags(r: ReservationInfo)
    ensures Tags(TextAndPortFields(r))
         == If(r.id != [], Key(1, LENGTH_DELIMITED)) + If(r.owner != [], Key(2, LENGTH_DELIMITED))
            + If(r.requestedPort != 0, Key(3, VARINT)) + If(r.assignedPort != 0, Key(4, VARINT))
            + If(r.targetHost != [], Key(5, LENGTH_DELIMITED)) + If(r.targetPort != 0, Key(6, VARINT))
            + If(r.state != 0, Key(7, VARINT))
  {
    var d := FirstTags(r);
    var e := d + Opt(r.targetHost != [], BytesField(42, r.targetHost));
    var f := e + Opt(r.targetPort != 0, VarintField(48, r.targetPort));
    TagsOfOpt(d, r.targetHost != [], BytesField(42, r.targetHost));
    TagsOfOpt(e, r.targetPort != 0, VarintField(48, r.targetPort));
    TagsOfOpt(f, r.state != 0, VarintField(56, Unsigned64(r.state)));
  }

  lemma FirstTags(r: ReservationInfo) returns (fs: seq<Field>)
    ensures fs == [] + Opt(r.id != [], BytesField(10, r.id)) + Opt(r.owner != [], BytesField(18, r.owner))
                  + Opt(r.requestedPort != 0, VarintField(24, r.requestedPort))
                  + Opt(r.assignedPort != 0, VarintField(32, r.assignedPort))
    ensures Tags(fs)
         == If(r.id != [], Key(1, LENGTH_DELIMITED)) + If(r.owner != [], Key(2, LENGTH_DELIMITED))
            + If(r.requestedPort != 0, Key(3, VARINT)) + If(r.assignedPort != 0, Key(4, VARINT))
  {
    var a := [] + Opt(r.id != [], BytesField(10, r.id));
    var b := a + Opt(r.owner != [], BytesField(18, r.owner));
    var c := b + Opt(r.requestedPort != 0, VarintField(24, r.requestedPort));
    fs := c + Opt(r.assignedPort != 0, VarintField(32, r.assignedPort));
    TagsOfOpt([], r.id != [], BytesField(10, r.id));
    TagsOfOpt(a, r.owner != [], BytesField(18, r.owner));
    TagsOfOpt(b, r.requestedPort != 0, VarintField(24, r.requestedPort));
    TagsOfOpt(c, r.assignedPort != 0, VarintField(32, r.assignedPort));
  }

  lemma TimestampDefaultsAreLeftOut(t: Timestamp)
    ensures Tags(TimestampFields(t)) == If(t.seconds != 0, Key(1, VARINT)) + If(t.nanos != 0, Key(2, VARINT))
  {
    var a := [] + Opt(t.seconds != 0, VarintField(8, Unsigned64(t.seconds)));
    TagsOfOpt([], t.seconds != 0, VarintField(8, Unsigned64(t.seconds)));
    TagsOfOpt(a, t.nanos != 0, VarintField(16, Unsigned64(t.nanos)));
  }

  // ---------------------------------------------------------------- field numbers

  const VARINT := 0

  const LENGTH_DELIMITED := 2

  /** How a field is tagged: its number and its wire type. */
  function Key(number: nat, wireType: nat): nat {
    number * 8 + wireType
  }

  lemma OneField(f: Field)
    ensures Encoded([f]) == FieldBytes(f)
    ensures forall accepts: Field -> bool :: All(accepts, [f]) <==> accepts(f)
  {
    assert [f][1..] == [];
  }

  lemma OneReservationField(f: Field)
    requires ReservationField(f)
    ensures ReservationOf(FieldBytes(f)) == Some(ReservationApply(BASE_RESERVATION, f))
  {
    OneField(f);
    ReservationOfFields([f]);
    assert [f][1..] == [];
    assert Fold(ReservationApply, BASE_RESERVATION, [f]) == ReservationApply(BASE_RESERVATION, f);
  }

  /** Each number of the schema, by itself, decodes to the field of that number: the texts, */
  lemma TextNumbers(text: seq<byte>)
    requires |text| < TWO_32
    ensures ReservationOf(FieldBytes(BytesField(Key(1, LENGTH_DELIMITED), text)))
         == Some(BASE_RESERVATION.(id := text))
    ensures ReservationOf(FieldBytes(BytesField(Key(2, LENGTH_DELIMITED), text)))
         == Some(BASE_RESERVATION.(owner := text))
    ensures ReservationOf(FieldBytes(BytesField(Key(5, LENGTH_DELIMITED), text)))
         == Some(BASE_RESERVATION.(targetHost := text))
  {
    OneReservationField(BytesField(Key(1, LENGTH_DELIMITED), text));
    OneReservationField(BytesField(Key(2, LENGTH_DELIMITED), text));
    OneReservationField(BytesField(Key(5, LENGTH_DELIMITED), text));
  }

  /** the numbers, */
  lemma PortNumbers(n: nat)
    requires n < TWO_32
    ensures ReservationOf(FieldBytes(VarintField(Key(3, VARINT), n))) == Some(BASE_RESERVATION.(requestedPort := n))
    ensures ReservationOf(FieldBytes(VarintField(Key(4, VARINT), n))) == Some(BASE_RESERVATION.(assignedPort := n))
    ensures ReservationOf(FieldBytes(VarintField(Key(6, VARINT), n))) == Some(BASE_RESERVATION.(targetPort := n))
    ensures ReservationOf(FieldBytes(VarintField(Key(10, VARINT), n)))
         == Some(BASE_RESERVATION.(leaseSeconds := Some(n)))
  {
    OneNumber(3, n);
    OneNumber(4, n);
    OneNumber(6, n);
    OneNumber(10, n);
  }

  lemma OneNumber(number: nat, n: nat)
    requires n < TWO_32 && number in {3, 4, 6, 10}
    ensures ReservationOf(FieldBytes(VarintField(Key(number, VARINT), n)))
         == Some(ReservationNumber(BASE_RESERVATION, Key(number, VARINT), n))
  {
    OneReservationField(VarintField(Key(number, VARINT), n));
  }

  lemma StateNumber(n: nat)
    requires n < TWO_32 / 2
    ensures ReservationOf(FieldBytes(VarintField(Key(7, VARINT), n))) == Some(BASE_RESERVATION.(state := n))
  {
    OneReservationField(VarintField(Key(7, VARINT), n));
  }

  /** and the times. */
  lemma TimeNumbers(t: Timestamp)
    requires IsTimestamp(t)
    ensures ReservationOf(FieldBytes(MessageField(Key(8, LENGTH_DELIMITED), TimestampFields(t))))
         == Some(BASE_RESERVATION.(createdAt := Some(t)))
    ensures ReservationOf(FieldBytes(MessageField(Key(9, LENGTH_DELIMITED), TimestampFields(t))))
         == Some(BASE_RESERVATION.(updatedAt := Some(t)))
    ensures ReservationOf(FieldBytes(MessageField(Key(11, LENGTH_DELIMITED), TimestampFields(t))))
         == Some(BASE_RESERVATION.(expiresAt := Some(t)))
  {
    TimeNumber(8, t);
    TimeNumber(9, t);
    TimeNumber(11, t);
  }

  lemma TimeNumber(number: nat, t: Timestamp)
    requires IsTimestamp(t) && number in {8, 9, 11}
    ensures ReservationOf(FieldBytes(MessageField(Key(number, LENGTH_DELIMITED), TimestampFields(t))))
         == Some(ReservationTime(BASE_RESERVATION, Key(number, LENGTH_DELIMITED), t))
  {
    NestedTimestampMeansItself(Key(number, LENGTH_DELIMITED), Some(t));
    OneReservationField(MessageField(Key(number, LENGTH_DELIMITED), TimestampFields(t)));
  }

  lemma TimestampNumbers(n: nat)
    requires n < TWO_32 / 2
    ensures TimestampOf(FieldBytes(VarintField(Key(1, VARINT), n))) == Some(Timestamp(n, 0))
    ensures TimestampOf(FieldBytes(VarintField(Key(2, VARINT), n))) == Some(Timestamp(0, n))
  {
    OneTimestampField(VarintField(Key(1, VARINT), n));
    OneTimestampField(VarintField(Key(2, VARINT), n));
  }

  lemma OneTimestampField(f: Field)
    requires WellFormed(f)
    ensures TimestampOf(FieldBytes(f)) == Some(TimestampApply(BASE_TIMESTAMP, f))
  {
    OneField(f);
    TimestampOfFields([f]);
    assert [f][1..] == [];
    assert Fold(TimestampApply, BASE_TIMESTAMP, [f]) == TimestampApply(BASE_TIMESTAMP, f);
  }

  lemma ReleaseNumbers(text: seq<byte>, n: nat)
    requires |text| < TWO_32 && n < TWO_32
    ensures ReleaseOf(FieldBytes(BytesField(Key(1, LENGTH_DELIMITED), text)))
         == Some(ReleaseRequest(Some(ReservationId(text))))
    ensures ReleaseOf(FieldBytes(VarintField(Key(2, VARINT), n))) == Some(ReleaseRequest(Some(PortNumber(n))))
  {
    OneReleaseField(BytesField(Key(1, LENGTH_DELIMITED), text));
    OneReleaseField(VarintField(Key(2, VARINT), n));
  }

  lemma OneReleaseField(f: Field)
    requires ReleaseField(f)
    ensures ReleaseOf(FieldBytes(f)) == Some(ReleaseApply(BASE_RELEASE, f))
  {
    OneField(f);
    ReleaseOfFields([f]);
    assert [f][1..] == [];
    assert Fold(ReleaseApply, BASE_RELEASE, [f]) == ReleaseApply(BASE_RELEASE, f);
  }

  lemma ListNumber(r: ReservationInfo)
    requires Fits(r)
    ensures ListOf(FieldBytes(MessageField(Key(1, LENGTH_DELIMITED), ReservationFields(r)))) == Some(ListResponse([r]))
  {
    var f := MessageField(Key(1, LENGTH_DELIMITED), ReservationFields(r));
    ListItemIsField(r, []);
    OneField(f);
    ListOfFields([f]);
    assert [f][1..] == [] && [] + [r] == [r];
    assert Fold(ListApply, BASE_LIST, [f]) == ListApply(BASE_LIST, f);
  }

  // ---------------------------------------------------------------- round trips

  lemma TimestampRoundTrip(t: Timestamp)
    requires IsTimestamp(t)
    ensures TimestampOf(Encoded(TimestampFields(t))) == Some(t)
  {
    TimestampMeansItself(t);
    TimestampOfFields(TimestampFields(t));
  }

  lemma ReservationRoundTrip(r: ReservationInfo)
    requires IsReservation(r)
    ensures ReservationOf(Encoded(ReservationFields(r))) == Some(r)
  {
    ReservationMeansItself(r);
    ReservationOfFields(ReservationFields(r));
  }

  lemma ListRoundTrip(l: ListResponse)
    requires AllFit(Fits, l.reservations)
    ensures ListOf(Encoded(ListFields(l.reservations))) == Some(l)
  {
    ListMeansItself(l.reservations, []);
    assert [] + l.reservations == l.reservations;
    ListOfFields(ListFields(l.reservations));
  }

  lemma ReleaseRoundTrip(r: ReleaseRequest)
    requires IsRelease(r)
    ensures ReleaseOf(Encoded(ReleaseFields(r))) == Some(r)
  {
    var fs := ReleaseFields(r);
    if fs != [] {
      assert fs[1..] == [];
    }
    ReleaseOfFields(fs);
  }

  /** A tag of zero or of an end of group ends the message; what follows is not looked at. */
  lemma StopTagEndsTheMessage(fs: seq<Field>, tag: nat, junk: seq<byte>)
    requires All(ReservationField, fs) && tag < TWO_32 && (tag == 0 || tag % 8 == 4)
    ensures ReservationOf(Encoded(fs) + (Varint(tag) + junk)) == Some(Fold(ReservationApply, BASE_RESERVATION, fs))
  {
    var buf := Encoded(fs) + (Varint(tag) + junk);
    ReservationProgresses();
    ReservationInterprets();
    Pieces(Encoded(fs), Varint(tag), junk);
    var at := |Encoded(fs)| + |Varint(tag)|;
    StopTagStops(buf, |Encoded(fs)|, tag, Fold(ReservationApply, BASE_RESERVATION, fs));
    LoopReadsThenStops(ReservationStep, ReservationApply, ReservationField, buf, fs, BASE_RESERVATION, at);
  }

  lemma StopTagStops(buf: seq<byte>, pos: nat, tag: nat, r: ReservationInfo)
    requires At(buf, pos, Varint(tag)) && tag < TWO_32 && (tag == 0 || tag % 8 == 4)
    ensures ReservationStep(buf, pos, r) == Stop(pos + |Varint(tag)|)
  {
    ReadLength(buf, pos, tag);
    ReservationTurn(buf, pos, tag, pos + |Varint(tag)|, r);
  }

  /** Two encoded lists, one after the other, decode to the joined list. */
  lemma ListsConcatenate(a: ListResponse, b: ListResponse)
    requires AllFit(Fits, a.reservations) && AllFit(Fits, b.reservations)
    ensures ListOf(Encoded(ListFields(a.reservations)) + Encoded(ListFields(b.reservations)))
         == Some(ListResponse(a.reservations + b.reservations))
  {
    var fs, gs := ListFields(a.reservations), ListFields(b.reservations);
    EncodedConcat(fs, gs);
    ListMeansItself(a.reservations, []);
    ListMeansItself(b.reservations, a.reservations);
    FoldConcat(ListApply, BASE_LIST, fs, gs);
    AllConcat(ListField, fs, gs);
    assert [] + a.reservations == a.reservations;
    ListOfFields(fs + gs);
  }

  /** Fields this version does not know are passed over, wherever they stand. */
  lemma UnknownFieldsAreIgnored(fs: seq<Field>, f: Field, gs: seq<Field>)
    requires All(ReservationField, fs + [f] + gs)
    requires f.tag !in {10, 18, 24, 32, 42, 48, 56, 66, 74, 80, 90}
    ensures ReservationOf(Encoded(fs + [f] + gs)) == ReservationOf(Encoded(fs + gs))
  {
    FoldConcat(ReservationApply, BASE_RESERVATION, fs + [f], gs);
    FoldConcat(ReservationApply, BASE_RESERVATION, fs, [f]);
    FoldConcat(ReservationApply, BASE_RESERVATION, fs, gs);
    assert [f][1..] == [];
    AllConcat(ReservationField, fs + [f], gs);
    AllConcat(ReservationField, fs, [f]);
    AllConcat(ReservationField, fs, gs);
    ReservationOfFields(fs + [f] + gs);
    ReservationOfFields(fs + gs);
  }
}
