/** The generated `encode` and `decode` methods themselves: appending to a writer, and advancing a reader in
    a loop. They are proved against the fields and the loops of modules Fields and Messages. */
module Codec {
  import opened Wrappers
  import opened Wire
  import opened Fields
  import opened Messages

  // ---------------------------------------------------------------- encode

  lemma Regroup(a: seq<byte>, b: seq<byte>, c: seq<byte>)
    ensures a + b + c == a + (b + c)
  {
  }

  /** `writer.uint32(tag).uint32(n)` and its kin. */
  method WriteNumber(w: Writer, tag: nat, n: nat)
    modifies w
    ensures w.bytes == old(w.bytes) + FieldBytes(VarintField(tag, n)) && w.stack == old(w.stack)
  {
    Regroup(w.bytes, Varint(tag), Varint(n));
    w.Varint64(tag);
    w.Varint64(n);
  }

  /** `writer.uint32(tag).string(text)` */
  method WriteText(w: Writer, tag: nat, text: seq<byte>)
    modifies w
    ensures w.bytes == old(w.bytes) + FieldBytes(BytesField(tag, text)) && w.stack == old(w.stack)
  {
    Regroup(w.bytes + Varint(tag), Varint(|text|), text);
    Regroup(w.bytes, Varint(tag), Varint(|text|) + text);
    w.Varint64(tag);
    w.Bytes(text);
  }

  /** Appending an optional field, when `bytes` already ends in the fields `fs`. */
  lemma Appended(bytes: seq<byte>, start: seq<byte>, fs: seq<Field>, present: bool, f: Field)
    requires bytes == start + Encoded(fs)
    ensures (if present then bytes + FieldBytes(f) else bytes) == start + Encoded(fs + Opt(present, f))
  {
    EncodedOpt(fs, present, f);
    Regroup(start, Encoded(fs), FieldBytes(f));
  }

  method EncodeTimestamp(t: Timestamp, w: Writer)
    modifies w
    ensures w.bytes == old(w.bytes) + Encoded(TimestampFields(t)) && w.stack == old(w.stack)
  {
    ghost var first, second := VarintField(8, Unsigned64(t.seconds)), VarintField(16, Unsigned64(t.nanos));
    assert w.bytes == old(w.bytes) + Encoded([]);
    Appended(w.bytes, old(w.bytes), [], t.seconds != 0, first);
    if t.seconds != 0 {
      WriteNumber(w, 8, Unsigned64(t.seconds));
    }
    Appended(w.bytes, old(w.bytes), [] + Opt(t.seconds != 0, first), t.nanos != 0, second);
    if t.nanos != 0 {
      WriteNumber(w, 16, Unsigned64(t.nanos));
    }
  }

  /** `Timestamp.encode(t, writer.uint32(tag).fork()).join()` */
  method EncodeNested(w: Writer, tag: nat, t: Timestamp)
    modifies w
    ensures w.bytes == old(w.bytes) + FieldBytes(MessageField(tag, TimestampFields(t))) && w.stack == old(w.stack)
  {
    ghost var nested := Encoded(TimestampFields(t));
    Regroup(w.bytes + Varint(tag), Varint(|nested|), nested);
    Regroup(w.bytes, Varint(tag), Varint(|nested|) + nested);
    w.Varint64(tag);
    w.Fork();
    EncodeTimestamp(t, w);
    assert w.bytes == nested;
    w.Join();
  }

  method EncodeReservation(r: ReservationInfo, w: Writer)
    modifies w
    ensures w.bytes == old(w.bytes) + Encoded(ReservationFields(r)) && w.stack == old(w.stack)
  {
    ghost var fs := EncodeTextsAndPorts(r, w);
    fs := EncodeOptionalTime(w, 66, r.createdAt, old(w.bytes), fs);
    fs := EncodeOptionalTime(w, 74, r.updatedAt, old(w.bytes), fs);
    ghost var lease := VarintField(80, if r.leaseSeconds.Some? then r.leaseSeconds.value else 0);
    Appended(w.bytes, old(w.bytes), fs, r.leaseSeconds.Some?, lease);
    if r.leaseSeconds.Some? {
      WriteNumber(w, 80, r.leaseSeconds.value);
    }
    fs := fs + Opt(r.leaseSeconds.Some?, lease);
    fs := EncodeOptionalTime(w, 90, r.expiresAt, old(w.bytes), fs);
  }

  /** A nested timestamp: left out when absent. */
  method EncodeOptionalTime(w: Writer, tag: nat, t: Option<Timestamp>, ghost start: seq<byte>, ghost fs: seq<Field>)
    returns (ghost gs: seq<Field>)
    requires w.bytes == start + Encoded(fs)
    modifies w
    ensures gs == fs + Opt(t.Some?, NestedTimestamp(tag, t))
    ensures w.bytes == start + Encoded(gs) && w.stack == old(w.stack)
  {
    gs := fs + Opt(t.Some?, NestedTimestamp(tag, t));
    Appended(w.bytes, start, fs, t.Some?, NestedTimestamp(tag, t));
    if t.Some? {
      EncodeNested(w, tag, t.value);
    }
  }

  /** A string field: left out when empty. */
  method EncodeText(w: Writer, tag: nat, text: seq<byte>, ghost start: seq<byte>, ghost fs: seq<Field>)
    returns (ghost gs: seq<Field>)
    requires w.bytes == start + Encoded(fs)
    modifies w
    ensures gs == fs + Opt(text != [], BytesField(tag, text))
    ensures w.bytes == start + Encoded(gs) && w.stack == old(w.stack)
  {
    gs := fs + Opt(text != [], BytesField(tag, text));
    Appended(w.bytes, start, fs, text != [], BytesField(tag, text));
    if text != [] {
      WriteText(w, tag, text);
    }
  }

  /** A number field: left out when zero. */
  method EncodeNumber(w: Writer, tag: nat, n: nat, ghost start: seq<byte>, ghost fs: seq<Field>)
    returns (ghost gs: seq<Field>)
    requires w.bytes == start + Encoded(fs)
    modifies w
    ensures gs == fs + Opt(n != 0, VarintField(tag, n))
    ensures w.bytes == start + Encoded(gs) && w.stack == old(w.stack)
  {
    gs := fs + Opt(n != 0, VarintField(tag, n));
    Appended(w.bytes, start, fs, n != 0, VarintField(tag, n));
    if n != 0 {
      WriteNumber(w, tag, n);
    }
  }

  /** The first seven fields. */
  method EncodeTextsAndPorts(r: ReservationInfo, w: Writer) returns (ghost fs: seq<Field>)
    modifies w
    ensures fs == TextAndPortFields(r)
    ensures w.bytes == old(w.bytes) + Encoded(fs) && w.stack == old(w.stack)
  {
    fs := [];
    assert w.bytes == old(w.bytes) + Encoded(fs);
    fs := EncodeText(w, 10, r.id, old(w.bytes), fs);
    fs := EncodeText(w, 18, r.owner, old(w.bytes), fs);
    fs := EncodeNumber(w, 24, r.requestedPort, old(w.bytes), fs);
    fs := EncodeNumber(w, 32, r.assignedPort, old(w.bytes), fs);
    fs := EncodeText(w, 42, r.targetHost, old(w.bytes), fs);
    fs := EncodeNumber(w, 48, r.targetPort, old(w.bytes), fs);
    ghost var state := VarintField(56, Unsigned64(r.state));
    Appended(w.bytes, old(w.bytes), fs, r.state != 0, state);
    if r.state != 0 {
      WriteNumber(w, 56, Unsigned64(r.state));
    }
    fs := fs + Opt(r.state != 0, state);
  }

  /** `ReservationInfo.encode(r, writer.uint32(10).fork()).join()` */
  method EncodeItem(w: Writer, r: ReservationInfo)
    modifies w
    ensures w.bytes == old(w.bytes) + FieldBytes(ListItem(r)) && w.stack == old(w.stack)
  {
    ghost var nested := Encoded(ReservationFields(r));
    Regroup(w.bytes + Varint(10), Varint(|nested|), nested);
    Regroup(w.bytes, Varint(10), Varint(|nested|) + nested);
    w.Varint64(10);
    w.Fork();
    EncodeReservation(r, w);
    assert w.bytes == nested;
    w.Join();
  }

  method EncodeList(l: ListResponse, w: Writer)
    modifies w
    ensures w.bytes == old(w.bytes) + Encoded(ListFields(l.reservations)) && w.stack == old(w.stack)
  {
    var i := 0;
    assert l.reservations[0..] == l.reservations;
    while i < |l.reservations|
      invariant 0 <= i <= |l.reservations|
      invariant w.bytes + StillToWrite(l.reservations, i) == old(w.bytes) + StillToWrite(l.reservations, 0)
      invariant w.stack == old(w.stack)
    {
      NextItem(w.bytes, l.reservations, i);
      EncodeItem(w, l.reservations[i]);
      i := i + 1;
    }
    assert StillToWrite(l.reservations, i) == [];
  }

  ghost function StillToWrite(l: seq<ReservationInfo>, i: nat): seq<byte>
    requires i <= |l|
  {
    Encoded(ListFields(l[i..]))
  }

  lemma NextItem(bytes: seq<byte>, l: seq<ReservationInfo>, i: nat)
    requires i < |l|
    ensures bytes + StillToWrite(l, i) == bytes + FieldBytes(ListItem(l[i])) + StillToWrite(l, i + 1)
  {
    var item, rest := ListItem(l[i]), ListFields(l[i + 1..]);
    assert l[i..][1..] == l[i + 1..];
    assert ListFields(l[i..]) == [item] + rest;
    FirstEncoded(item, rest);
    Regroup(bytes, FieldBytes(item), Encoded(rest));
  }

  lemma FirstEncoded(f: Field, rest: seq<Field>)
    ensures Encoded([f] + rest) == FieldBytes(f) + Encoded(rest)
  {
    assert ([f] + rest)[1..] == rest;
  }

  method EncodeRelease(r: ReleaseRequest, w: Writer)
    modifies w
    ensures w.bytes == old(w.bytes) + Encoded(ReleaseFields(r)) && w.stack == old(w.stack)
  {
    match r.identifier {
      case None =>
      case Some(ReservationId(id)) =>
        SingleField(BytesField(10, id));
        WriteText(w, 10, id);
      case Some(PortNumber(port)) =>
        SingleField(VarintField(16, port));
        WriteNumber(w, 16, port);
    }
  }

  lemma SingleField(f: Field)
    ensures Encoded([f]) == FieldBytes(f)
  {
    assert [f][1..] == [];
  }

  // ---------------------------------------------------------------- decode

  /** Where a decode loop stops: at the end of the buffer, or after `length` bytes. */
  function EndOf(buf: seq<byte>, pos: nat, length: Option<nat>): nat {
    if length.Some? then pos + length.value else |buf|
  }

  /** The turn of a loop that falls through to the tail. */
  method SkipUnknown<M>(reader: Reader, tag: nat, ghost msg: M) returns (stop: bool, ok: bool)
    modifies reader
    ensures match Unknown(reader.buf, tag, old(reader.pos), msg)
            case Stop(at) => stop && reader.pos == at
            case Fail => !stop && !ok
            case Continue(_, after) => !stop && ok && reader.pos == after
  {
    stop, ok := false, true;
    if tag % 8 == 4 || tag == 0 {
      stop := true;
      return;
    }
    ok := reader.SkipField(tag % 8);
  }

  method DecodeTimestamp(reader: Reader, length: Option<nat>) returns (r: Option<Timestamp>)
    modifies reader
    ensures Progresses(TimestampStep)
    ensures var end := EndOf(reader.buf, old(reader.pos), length);
            match Loop(TimestampStep, reader.buf, old(reader.pos), end, BASE_TIMESTAMP)
            case None => r.None?
            case Some((t, after)) => r == Some(t) && reader.pos == after
  {
    TimestampProgresses();
    var buf, start := reader.buf, reader.pos;
    var end, message := EndOf(buf, start, length), BASE_TIMESTAMP;
    while reader.pos < end
      invariant Loop(TimestampStep, buf, reader.pos, end, message)
             == Loop(TimestampStep, buf, start, end, BASE_TIMESTAMP)
      decreases if reader.pos <= |buf| then |buf| - reader.pos else 0
    {
      assert TurnConsumes(TimestampStep, buf, reader.pos, message);
      var tag := reader.Uint32();
      if tag.None? {
        return None;
      }
      if tag.value == 8 {
        var n := reader.Int64();
        if n.None? {
          return None;
        }
        message := message.(seconds := n.value);
      } else if tag.value == 16 {
        var n := reader.Int32();
        if n.None? {
          return None;
        }
        message := message.(nanos := n.value);
      } else {
        var stop, ok := SkipUnknown(reader, tag.value, message);
        if stop {
          return Some(message);
        }
        if !ok {
          return None;
        }
      }
    }
    return Some(message);
  }

  /** `Timestamp.decode(reader, reader.uint32())` */
  method DecodeNested(reader: Reader) returns (r: Option<Timestamp>)
    modifies reader
    ensures Progresses(TimestampStep)
    ensures match Nested(TimestampStep, reader.buf, old(reader.pos), BASE_TIMESTAMP)
            case None => r.None?
            case Some((t, after)) => r == Some(t) && reader.pos == after
  {
    TimestampProgresses();
    var length := reader.Uint32();
    if length.None? {
      return None;
    }
    r := DecodeTimestamp(reader, length);
  }

  method DecodeReservation(reader: Reader, length: Option<nat>) returns (r: Option<ReservationInfo>)
    modifies reader
    ensures Progresses(ReservationStep)
    ensures var end := EndOf(reader.buf, old(reader.pos), length);
            match Loop(ReservationStep, reader.buf, old(reader.pos), end, BASE_RESERVATION)
            case None => r.None?
            case Some((m, after)) => r == Some(m) && reader.pos == after
  {
    ReservationProgresses();
    var buf, start := reader.buf, reader.pos;
    var end, message := EndOf(buf, start, length), BASE_RESERVATION;
    while reader.pos < end
      invariant Loop(ReservationStep, buf, reader.pos, end, message)
             == Loop(ReservationStep, buf, start, end, BASE_RESERVATION)
      decreases if reader.pos <= |buf| then |buf| - reader.pos else 0
    {
      assert TurnConsumes(ReservationStep, buf, reader.pos, message);
      var stop, next := ReservationTurnOf(reader, message);
      if next.None? {
        return None;
      }
      if stop {
        return Some(message);
      }
      message := next.value;
    }
    return Some(message);
  }

  /** One turn of that loop: the tag, and the field it announces. */
  method ReservationTurnOf(reader: Reader, message: ReservationInfo) returns (stop: bool, next: Option<ReservationInfo>)
    modifies reader
    ensures match ReservationStep(reader.buf, old(reader.pos), message)
            case Fail => next.None?
            case Stop(at) => stop && next == Some(message) && reader.pos == at
            case Continue(m, after) => !stop && next == Some(m) && reader.pos == after
  {
    stop, next := false, None;
    var tag := reader.Uint32();
    if tag.None? {
      return;
    }
    if tag.value == 10 || tag.value == 18 || tag.value == 42 {
      var text := reader.Bytes();
      if text.Some? {
        next := Some(ReservationText(message, tag.value, text.value));
      }
    } else if tag.value == 24 || tag.value == 32 || tag.value == 48 || tag.value == 80 {
      var n := reader.Uint32();
      if n.Some? {
        next := Some(ReservationNumber(message, tag.value, n.value));
      }
    } else if tag.value == 56 {
      var n := reader.Int32();
      if n.Some? {
        next := Some(message.(state := n.value));
      }
    } else if tag.value == 66 || tag.value == 74 || tag.value == 90 {
      var t := DecodeNested(reader);
      if t.Some? {
        next := Some(ReservationTime(message, tag.value, t.value));
      }
    } else {
      var ok;
      stop, ok := SkipUnknown(reader, tag.value, message);
      if stop || ok {
        next := Some(message);
      }
    }
  }

  /** `ReservationInfo.decode(reader, reader.uint32())` */
  method DecodeItem(reader: Reader) returns (r: Option<ReservationInfo>)
    modifies reader
    ensures Progresses(ReservationStep)
    ensures match Nested(ReservationStep, reader.buf, old(reader.pos), BASE_RESERVATION)
            case None => r.None?
            case Some((m, after)) => r == Some(m) && reader.pos == after
  {
    ReservationProgresses();
    var length := reader.Uint32();
    if length.None? {
      return None;
    }
    r := DecodeReservation(reader, length);
  }

  method ListTurnOf(reader: Reader, message: ListResponse) returns (stop: bool, next: Option<ListResponse>)
    modifies reader
    ensures match ListStep(reader.buf, old(reader.pos), message)
            case Fail => next.None?
            case Stop(at) => stop && next == Some(message) && reader.pos == at
            case Continue(m, after) => !stop && next == Some(m) && reader.pos == after
  {
    stop, next := false, None;
    var tag := reader.Uint32();
    if tag.None? {
      return;
    }
    if tag.value == 10 {
      var item := DecodeItem(reader);
      if item.Some? {
        next := Some(ListResponse(message.reservations + [item.value]));
      }
    } else {
      var ok;
      stop, ok := SkipUnknown(reader, tag.value, message);
      if stop || ok {
        next := Some(message);
      }
    }
  }

  method DecodeList(reader: Reader, length: Option<nat>) returns (r: Option<ListResponse>)
    modifies reader
    ensures Progresses(ListStep)
    ensures match Loop(ListStep, reader.buf, old(reader.pos), EndOf(reader.buf, old(reader.pos), length), BASE_LIST)
            case None => r.None?
            case Some((m, after)) => r == Some(m) && reader.pos == after
  {
    ListProgresses();
    var buf, start := reader.buf, reader.pos;
    var end, message := EndOf(buf, start, length), BASE_LIST;
    while reader.pos < end
      invariant Loop(ListStep, buf, reader.pos, end, message) == Loop(ListStep, buf, start, end, BASE_LIST)
      decreases if reader.pos <= |buf| then |buf| - reader.pos else 0
    {
      assert TurnConsumes(ListStep, buf, reader.pos, message);
      var stop, next := ListTurnOf(reader, message);
      if next.None? {
        return None;
      }
      if stop {
        return Some(message);
      }
      message := next.value;
    }
    return Some(message);
  }

  method DecodeRelease(reader: Reader, length: Option<nat>) returns (r: Option<ReleaseRequest>)
    modifies reader
    ensures Progresses(ReleaseStep)
    ensures var end := EndOf(reader.buf, old(reader.pos), length);
            match Loop(ReleaseStep, reader.buf, old(reader.pos), end, BASE_RELEASE)
            case None => r.None?
            case Some((m, after)) => r == Some(m) && reader.pos == after
  {
    ReleaseProgresses();
    var buf, start := reader.buf, reader.pos;
    var end, message := EndOf(buf, start, length), BASE_RELEASE;
    while reader.pos < end
      invariant Loop(ReleaseStep, buf, reader.pos, end, message) == Loop(ReleaseStep, buf, start, end, BASE_RELEASE)
      decreases if reader.pos <= |buf| then |buf| - reader.pos else 0
    {
      assert TurnConsumes(ReleaseStep, buf, reader.pos, message);
      var tag := reader.Uint32();
      if tag.None? {
        return None;
      }
      if tag.value == 10 {
        var id := reader.Bytes();
        if id.None? {
          return None;
        }
        message := ReleaseRequest(Some(ReservationId(id.value)));
      } else if tag.value == 16 {
        var port := reader.Uint32();
        if port.None? {
          return None;
        }
        message := ReleaseRequest(Some(PortNumber(port.value)));
      } else {
        var stop, ok := SkipUnknown(reader, tag.value, message);
        if stop {
          return Some(message);
        }
        if !ok {
          return None;
        }
      }
    }
    return Some(message);
  }

  // ---------------------------------------------------------------- the two together

  /** Encoding and decoding a list gives the list back. */
  method ListThereAndBack(l: ListResponse) returns (r: Option<ListResponse>)
    requires AllFit(Fits, l.reservations)
    ensures r == Some(l)
  {
    var w := new Writer();
    EncodeList(l, w);
    ListRoundTrip(l);
    assert [] + Encoded(ListFields(l.reservations)) == Encoded(ListFields(l.reservations));
    var reader := new Reader(w.bytes);
    r := DecodeList(reader, None);
  }

  method ReleaseThereAndBack(m: ReleaseRequest) returns (r: Option<ReleaseRequest>)
    requires IsRelease(m)
    ensures r == Some(m)
  {
    var w := new Writer();
    EncodeRelease(m, w);
    ReleaseRoundTrip(m);
    assert [] + Encoded(ReleaseFields(m)) == Encoded(ReleaseFields(m));
    var reader := new Reader(w.bytes);
    r := DecodeRelease(reader, None);
  }
}
