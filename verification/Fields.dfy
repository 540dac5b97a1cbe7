/** Encoded messages as sequences of fields, and the loop shape that every generated decoder has. */
module Fields {
  import opened Wrappers
  import opened Wire

  datatype Field =
    | VarintField(tag: nat, value: nat)
    | BytesField(tag: nat, payload: seq<byte>)
    | MessageField(tag: nat, fields: seq<Field>)

  function Body(f: Field): seq<byte>
    decreases f, 0
  {
    match f
    case VarintField(_, value) => Varint(value)
    case BytesField(_, payload) => Varint(|payload|) + payload
    case MessageField(_, fields) => Varint(|Encoded(fields)|) + Encoded(fields)
  }

  function FieldBytes(f: Field): (bytes: seq<byte>)
    ensures |bytes| > 0
    decreases f, 1
  {
    Varint(f.tag) + Body(f)
  }

  function Encoded(fs: seq<Field>): seq<byte>
    decreases fs, 0
  {
    if fs == [] then [] else FieldBytes(fs[0]) + Encoded(fs[1..])
  }

  /** The tag ends in the wire type of its field, and every number and length is in range. */
  predicate WellFormed(f: Field)
    decreases f, 0
  {
    0 < f.tag < TWO_32 &&
    match f
    case VarintField(tag, value) => tag % 8 == 0 && value < TWO_64
    case BytesField(tag, payload) => tag % 8 == 2 && |payload| < TWO_32
    case MessageField(tag, fields) => tag % 8 == 2 && |Encoded(fields)| < TWO_32 && AllWellFormed(fields)
  }

  predicate AllWellFormed(fs: seq<Field>)
    decreases fs, 1
  {
    fs == [] || (WellFormed(fs[0]) && AllWellFormed(fs[1..]))
  }

  /** What one turn of a decode loop does: it goes on behind the field, meets an end-group tag, or throws. */
  datatype Step<M> = Continue(msg: M, after: nat) | Stop(at: nat) | Fail

  type Decoder<!M> = (seq<byte>, nat, M) -> Step<M>

  /** Every turn consumes input. */
  ghost predicate Progresses<M(!new)>(step: Decoder<M>) {
    forall buf: seq<byte>, pos: nat, msg: M :: TurnConsumes(step, buf, pos, msg)
  }

  ghost predicate TurnConsumes<M>(step: Decoder<M>, buf: seq<byte>, pos: nat, msg: M) {
    match step(buf, pos, msg)
    case Continue(_, after) => pos < after <= |buf|
    case Stop(at) => pos < at <= |buf|
    case Fail => true
  }

  /** The decode loop: turns until `end`, which an overlong field may pass. */
  ghost function Loop<M(!new)>(step: Decoder<M>, buf: seq<byte>, pos: nat, end: nat, msg: M): Option<(M, nat)>
    requires Progresses(step)
    decreases if pos <= |buf| then |buf| - pos else 0
  {
    if pos >= end then Some((msg, pos))
    else
      assert TurnConsumes(step, buf, pos, msg);
      match step(buf, pos, msg)
      case Fail => None
      case Stop(at) => Some((msg, at))
      case Continue(msg', after) => Loop(step, buf, after, end, msg')
  }

  /** A nested message: its length, then its loop. */
  ghost function Nested<M(!new)>(step: Decoder<M>, buf: seq<byte>, pos: nat, base: M): Option<(M, nat)>
    requires Progresses(step)
  {
    match ReadUint32(buf, pos)
    case None => None
    case Some((length, start)) => Loop(step, buf, start, start + length, base)
  }

  lemma {:induction false} LoopAdvances<M(!new)>(step: Decoder<M>, buf: seq<byte>, pos: nat, end: nat, msg: M)
    requires Progresses(step)
    ensures var r := Loop(step, buf, pos, end, msg);
            r.Some? ==> pos <= r.value.1 && (pos <= |buf| ==> r.value.1 <= |buf|)
    decreases if pos <= |buf| then |buf| - pos else 0
  {
    if pos < end {
      assert TurnConsumes(step, buf, pos, msg);
      var turn := step(buf, pos, msg);
      if turn.Continue? {
        LoopAdvances(step, buf, turn.after, end, turn.msg);
      }
    }
  }

  lemma NestedAdvances<M(!new)>(step: Decoder<M>, buf: seq<byte>, pos: nat, base: M)
    requires Progresses(step)
    ensures Nested(step, buf, pos, base).Some? ==> pos < Nested(step, buf, pos, base).value.1 <= |buf|
  {
    var length := ReadUint32(buf, pos);
    if length.Some? {
      LoopAdvances(step, buf, length.value.1, length.value.1 + length.value.0, base);
    }
  }

  /** The tail of every turn, for a tag the message does not know. */
  function Unknown<M>(buf: seq<byte>, tag: nat, pos: nat, msg: M): Step<M> {
    if tag % 8 == 4 || tag == 0 then Stop(pos)
    else
      match Skip(buf, pos, tag % 8)
      case None => Fail
      case Some(after) => Continue(msg, after)
  }

  // ---------------------------------------------------------------- decoding a sequence of fields

  /** `apply` says what a field means for a message; `step` finds that meaning in the bytes. */
  ghost predicate Interprets<M(!new)>(step: Decoder<M>, apply: (M, Field) -> M, accepts: Field -> bool) {
    forall buf: seq<byte>, pos: nat, f: Field, msg: M :: ReadsField(step, apply, accepts, buf, pos, f, msg)
  }

  ghost predicate ReadsField<M>(step: Decoder<M>, apply: (M, Field) -> M, accepts: Field -> bool,
                                buf: seq<byte>, pos: nat, f: Field, msg: M) {
    accepts(f) && At(buf, pos, FieldBytes(f)) ==>
      step(buf, pos, msg) == Continue(apply(msg, f), pos + |FieldBytes(f)|)
  }

  predicate All(accepts: Field -> bool, fs: seq<Field>) {
    fs == [] || (accepts(fs[0]) && All(accepts, fs[1..]))
  }

  function Fold<M>(apply: (M, Field) -> M, msg: M, fs: seq<Field>): M {
    if fs == [] then msg else Fold(apply, apply(msg, fs[0]), fs[1..])
  }

  lemma FirstFieldIsRead<M(!new)>(step: Decoder<M>, apply: (M, Field) -> M, accepts: Field -> bool,
                                  buf: seq<byte>, pos: nat, end: nat, f: Field, msg: M)
    requires Progresses(step) && Interprets(step, apply, accepts)
    requires accepts(f) && At(buf, pos, FieldBytes(f)) && pos < end
    ensures Loop(step, buf, pos, end, msg) == Loop(step, buf, pos + |FieldBytes(f)|, end, apply(msg, f))
  {
    assert ReadsField(step, apply, accepts, buf, pos, f, msg);
    assert TurnConsumes(step, buf, pos, msg);
  }

  lemma FirstOfEncoded(buf: seq<byte>, pos: nat, fs: seq<Field>)
    requires fs != [] && At(buf, pos, Encoded(fs))
    ensures At(buf, pos, FieldBytes(fs[0])) && At(buf, pos + |FieldBytes(fs[0])|, Encoded(fs[1..]))
    ensures |Encoded(fs)| == |FieldBytes(fs[0])| + |Encoded(fs[1..])|
  {
    AtConcat(buf, pos, FieldBytes(fs[0]), Encoded(fs[1..]));
  }

  lemma LoopStops<M(!new)>(step: Decoder<M>, buf: seq<byte>, pos: nat, end: nat, msg: M, at: nat)
    requires Progresses(step) && pos < end && step(buf, pos, msg) == Stop(at)
    ensures Loop(step, buf, pos, end, msg) == Some((msg, at))
  {
  }

  /** The loop reads a sequence of fields, whatever comes after them. */
  lemma {:induction false} LoopReadsOn<M(!new)>(step: Decoder<M>, apply: (M, Field) -> M, accepts: Field -> bool,
                                                buf: seq<byte>, pos: nat, end: nat, fs: seq<Field>, msg: M)
    requires Progresses(step) && Interprets(step, apply, accepts)
    requires All(accepts, fs) && At(buf, pos, Encoded(fs)) && pos + |Encoded(fs)| <= end
    ensures Loop(step, buf, pos, end, msg) == Loop(step, buf, pos + |Encoded(fs)|, end, Fold(apply, msg, fs))
    decreases |fs|
  {
    if fs != [] {
      FirstOfEncoded(buf, pos, fs);
      var next := pos + |FieldBytes(fs[0])|;
      FirstFieldIsRead(step, apply, accepts, buf, pos, end, fs[0], msg);
      LoopReadsOn(step, apply, accepts, buf, next, end, fs[1..], apply(msg, fs[0]));
    }
  }

  lemma LoopReadsThenStops<M(!new)>(step: Decoder<M>, apply: (M, Field) -> M, accepts: Field -> bool,
                                    buf: seq<byte>, fs: seq<Field>, msg: M, at: nat)
    requires Progresses(step) && Interprets(step, apply, accepts)
    requires All(accepts, fs) && At(buf, 0, Encoded(fs)) && |Encoded(fs)| < |buf|
    requires step(buf, |Encoded(fs)|, Fold(apply, msg, fs)) == Stop(at)
    ensures Loop(step, buf, 0, |buf|, msg) == Some((Fold(apply, msg, fs), at))
  {
    LoopReadsOn(step, apply, accepts, buf, 0, |buf|, fs, msg);
    LoopStops(step, buf, |Encoded(fs)|, |buf|, Fold(apply, msg, fs), at);
  }

  lemma Pieces(a: seq<byte>, b: seq<byte>, c: seq<byte>)
    ensures At(a + (b + c), 0, a) && At(a + (b + c), |a|, b)
  {
  }

  /** The worked examples of the Protocol Buffers Encoding guide: a number, a text and a nested message. */
  lemma GuideFields()
    ensures FieldBytes(VarintField(8, 150)) == [0x08, 0x96, 0x01]
    ensures FieldBytes(BytesField(18, [0x74, 0x65, 0x73, 0x74, 0x69, 0x6e, 0x67]))
         == [0x12, 0x07, 0x74, 0x65, 0x73, 0x74, 0x69, 0x6e, 0x67]
    ensures FieldBytes(MessageField(26, [VarintField(8, 150)])) == [0x1a, 0x03, 0x08, 0x96, 0x01]
  {
    GuideVarints(Unsigned64(-2));
    var inner := VarintField(8, 150);
    assert Varint(8) == [8] && FieldBytes(inner) == [0x08, 0x96, 0x01];
    assert [inner][1..] == [] && Encoded([inner]) == [0x08, 0x96, 0x01];
    assert Varint(26) == [26] && Varint(3) == [3] && Varint(18) == [18] && Varint(7) == [7];
  }

  /** The loop reads a sequence of fields one after the other, each on top of the message so far. */
  lemma {:induction false} LoopReads<M(!new)>(step: Decoder<M>, apply: (M, Field) -> M, accepts: Field -> bool,
                                              buf: seq<byte>, pos: nat, fs: seq<Field>, msg: M)
    requires Progresses(step) && Interprets(step, apply, accepts)
    requires All(accepts, fs) && At(buf, pos, Encoded(fs))
    ensures Loop(step, buf, pos, pos + |Encoded(fs)|, msg) == Some((Fold(apply, msg, fs), pos + |Encoded(fs)|))
    decreases |fs|
  {
    if fs != [] {
      var f, rest, end := fs[0], fs[1..], pos + |Encoded(fs)|;
      FirstOfEncoded(buf, pos, fs);
      var next := pos + |FieldBytes(f)|;
      FirstFieldIsRead(step, apply, accepts, buf, pos, end, f, msg);
      LoopReads(step, apply, accepts, buf, next, rest, apply(msg, f));
      assert next + |Encoded(rest)| == end;
    }
  }

  lemma NestedReads<M(!new)>(step: Decoder<M>, apply: (M, Field) -> M, accepts: Field -> bool,
                             buf: seq<byte>, pos: nat, fs: seq<Field>, base: M)
    requires Progresses(step) && Interprets(step, apply, accepts)
    requires All(accepts, fs) && |Encoded(fs)| < TWO_32
    requires At(buf, pos, Varint(|Encoded(fs)|) + Encoded(fs))
    ensures Nested(step, buf, pos, base)
         == Some((Fold(apply, base, fs), pos + |Varint(|Encoded(fs)|) + Encoded(fs)|))
  {
    var n := |Encoded(fs)|;
    AtConcat(buf, pos, Varint(n), Encoded(fs));
    ReadLength(buf, pos, n);
    LoopReads(step, apply, accepts, buf, pos + |Varint(n)|, fs, base);
  }

  lemma TagIsRead(buf: seq<byte>, pos: nat, f: Field)
    requires WellFormed(f) && At(buf, pos, FieldBytes(f))
    ensures ReadUint32(buf, pos) == Some((f.tag, pos + |Varint(f.tag)|))
    ensures At(buf, pos + |Varint(f.tag)|, Body(f))
    ensures pos + |FieldBytes(f)| == pos + |Varint(f.tag)| + |Body(f)|
  {
    AtConcat(buf, pos, Varint(f.tag), Body(f));
    ReadLength(buf, pos, f.tag);
  }

  /** A field of an unknown tag is passed over whole. */
  lemma UnknownFieldIsSkipped<M>(buf: seq<byte>, pos: nat, f: Field, msg: M)
    requires WellFormed(f) && At(buf, pos, Body(f))
    ensures Unknown(buf, f.tag, pos, msg) == Continue(msg, pos + |Body(f)|)
  {
    match f
    case VarintField(_, value) => SkipWritten(buf, pos, value);
    case BytesField(_, payload) => ReadWrittenBytes(buf, pos, payload);
    case MessageField(_, fields) => ReadWrittenBytes(buf, pos, Encoded(fields));
  }

  // ---------------------------------------------------------------- sequences of optional fields

  function Opt(present: bool, f: Field): seq<Field> {
    if present then [f] else []
  }

  lemma {:induction false} EncodedConcat(fs: seq<Field>, gs: seq<Field>)
    ensures Encoded(fs + gs) == Encoded(fs) + Encoded(gs)
    decreases |fs|
  {
    if fs == [] {
      assert fs + gs == gs;
    } else {
      assert (fs + gs)[1..] == fs[1..] + gs;
      EncodedConcat(fs[1..], gs);
    }
  }

  lemma {:induction false} FoldConcat<M>(apply: (M, Field) -> M, msg: M, fs: seq<Field>, gs: seq<Field>)
    ensures Fold(apply, msg, fs + gs) == Fold(apply, Fold(apply, msg, fs), gs)
    decreases |fs|
  {
    if fs == [] {
      assert fs + gs == gs;
    } else {
      assert (fs + gs)[1..] == fs[1..] + gs;
      FoldConcat(apply, apply(msg, fs[0]), fs[1..], gs);
    }
  }

  lemma EncodedOpt(fs: seq<Field>, present: bool, f: Field)
    ensures Encoded(fs + Opt(present, f)) == Encoded(fs) + if present then FieldBytes(f) else []
  {
    EncodedConcat(fs, Opt(present, f));
    assert Encoded([]) == [];
    if present {
      assert [f][1..] == [];
      assert Encoded([f]) == FieldBytes(f) + [];
    }
  }

  /** Appending an optional field to a sequence that means `m` makes it mean `m'`. */
  lemma AddOpt<M>(apply: (M, Field) -> M, accepts: Field -> bool, base: M,
                  fs: seq<Field>, m: M, present: bool, f: Field, m': M) returns (gs: seq<Field>)
    requires All(accepts, fs) && Fold(apply, base, fs) == m
    requires if present then accepts(f) && apply(m, f) == m' else m == m'
    ensures gs == fs + Opt(present, f)
    ensures All(accepts, gs) && Fold(apply, base, gs) == m'
  {
    gs := fs + Opt(present, f);
    FoldConcat(apply, base, fs, Opt(present, f));
    AllConcat(accepts, fs, Opt(present, f));
    if present {
      assert [f][1..] == [];
    }
  }

  lemma FoldFirst<M>(apply: (M, Field) -> M, accepts: Field -> bool, msg: M, f: Field, rest: seq<Field>)
    ensures Fold(apply, msg, [f] + rest) == Fold(apply, apply(msg, f), rest)
    ensures All(accepts, [f] + rest) <==> accepts(f) && All(accepts, rest)
  {
    assert ([f] + rest)[1..] == rest;
  }

  lemma {:induction false} AllConcat(accepts: Field -> bool, fs: seq<Field>, gs: seq<Field>)
    ensures All(accepts, fs + gs) <==> All(accepts, fs) && All(accepts, gs)
    decreases |fs|
  {
    if fs == [] {
      assert fs + gs == gs;
    } else {
      assert (fs + gs)[1..] == fs[1..] + gs;
      AllConcat(accepts, fs[1..], gs);
    }
  }

  // ---------------------------------------------------------------- repeated fields

  function Items<T>(item: T -> Field, l: seq<T>): seq<Field> {
    if l == [] then [] else [item(l[0])] + Items(item, l[1..])
  }

  predicate AllFit<T>(fits: T -> bool, l: seq<T>) {
    l == [] || (fits(l[0]) && AllFit(fits, l[1..]))
  }

  /** A repeated field appends its item to the message made of the items so far. */
  ghost predicate AppendsItem<M, T>(apply: (M, Field) -> M, accepts: Field -> bool, item: T -> Field,
                                    wrap: seq<T> -> M, fits: T -> bool, x: T, before: seq<T>) {
    fits(x) ==> accepts(item(x)) && apply(wrap(before), item(x)) == wrap(before + [x])
  }

  lemma {:induction false} FoldItems<M, T(!new)>(apply: (M, Field) -> M, accepts: Field -> bool, item: T -> Field,
                                                 wrap: seq<T> -> M, fits: T -> bool, l: seq<T>, before: seq<T>)
    requires AllFit(fits, l)
    requires forall x: T, b: seq<T> :: AppendsItem(apply, accepts, item, wrap, fits, x, b)
    ensures All(accepts, Items(item, l))
    ensures Fold(apply, wrap(before), Items(item, l)) == wrap(before + l)
    decreases |l|
  {
    if l != [] {
      assert AppendsItem(apply, accepts, item, wrap, fits, l[0], before);
      FoldFirst(apply, accepts, wrap(before), item(l[0]), Items(item, l[1..]));
      FoldItems(apply, accepts, item, wrap, fits, l[1..], before + [l[0]]);
      assert before + [l[0]] + l[1..] == before + l;
    } else {
      assert before + l == before;
    }
  }
}
