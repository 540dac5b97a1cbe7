/** The wire format below the generated messages: base 128 varints and length-delimited records, as in the
    sections of those names of the Protocol Buffers Encoding guide, with a writer and a reader for them. */
module Wire {
  import opened Wrappers

  type byte = b: int | 0 <= b < 256

  const TWO_32 := 0x1_0000_0000
  const TWO_64 := 0x1_0000_0000_0000_0000

  // ---------------------------------------------------------------- varints

  function Varint(n: nat): (bytes: seq<byte>)
    ensures |bytes| >= 1
  {
    if n < 128 then [n] else [n % 128 + 128] + Varint(n / 128)
  }

  /** A varint of at most `budget` bytes: its value and the position after it. */
  function ReadVarint(buf: seq<byte>, pos: nat, budget: nat): (r: Option<(nat, nat)>)
    ensures r.Some? ==> pos < r.value.1 <= |buf|
    decreases budget, buf, pos
  {
    if pos >= |buf| || budget == 0 then None
    else if buf[pos] < 128 then Some((buf[pos], pos + 1))
    else
      match ReadVarint(buf, pos + 1, budget - 1)
      case None => None
      case Some((rest, after)) => Some((buf[pos] - 128 + 128 * rest, after))
  }

  const MAX_VARINT_BYTES := 10

  /** The low 32 bits of a varint. */
  function ReadUint32(buf: seq<byte>, pos: nat): (r: Option<(nat, nat)>)
    ensures r.Some? ==> pos < r.value.1 <= |buf| && r.value.0 < TWO_32
  {
    match ReadVarint(buf, pos, MAX_VARINT_BYTES)
    case None => None
    case Some((n, after)) => Some((n % TWO_32, after))
  }

  function ReadInt32(buf: seq<byte>, pos: nat): (r: Option<(int, nat)>)
    ensures r.Some? ==> pos < r.value.1 <= |buf|
  {
    match ReadVarint(buf, pos, MAX_VARINT_BYTES)
    case None => None
    case Some((n, after)) => Some((Signed(n % TWO_32, TWO_32), after))
  }

  function ReadInt64(buf: seq<byte>, pos: nat): (r: Option<(int, nat)>)
    ensures r.Some? ==> pos < r.value.1 <= |buf|
  {
    match ReadVarint(buf, pos, MAX_VARINT_BYTES)
    case None => None
    case Some((n, after)) => Some((Signed(n % TWO_64, TWO_64), after))
  }

  /** Two's complement: the signed reading of an unsigned number. */
  function Signed(n: nat, modulus: nat): int {
    if n < modulus / 2 then n else n - modulus
  }

  /** Negative numbers of either signed type are written in 64 bits. */
  function Unsigned64(n: int): nat {
    n % TWO_64
  }

  function ReadBytes(buf: seq<byte>, pos: nat): (r: Option<(seq<byte>, nat)>)
    ensures r.Some? ==> pos < r.value.1 <= |buf|
  {
    match ReadUint32(buf, pos)
    case None => None
    case Some((n, start)) => if start + n > |buf| then None else Some((buf[start..start + n], start + n))
  }

  /** Skip a field of an unknown tag by its wire type. */
  function Skip(buf: seq<byte>, pos: nat, wireType: nat): (r: Option<nat>)
    ensures r.Some? ==> pos <= r.value <= |buf|
  {
    if wireType == 0 then SkipVarint(buf, pos)
    else if wireType == 1 then (if pos + 8 <= |buf| then Some(pos + 8) else None)
    else if wireType == 2 then (match ReadBytes(buf, pos) case None => None case Some((_, after)) => Some(after))
    else if wireType == 5 then (if pos + 4 <= |buf| then Some(pos + 4) else None)
    else None
  }

  function SkipVarint(buf: seq<byte>, pos: nat): (r: Option<nat>)
    ensures r.Some? ==> pos < r.value <= |buf|
    decreases if pos <= |buf| then |buf| - pos else 0
  {
    if pos >= |buf| then None else if buf[pos] < 128 then Some(pos + 1) else SkipVarint(buf, pos + 1)
  }

  // ---------------------------------------------------------------- the writer

  class Writer {
    var bytes: seq<byte>
    var stack: seq<seq<byte>>

    constructor ()
      ensures bytes == [] && stack == []
    {
      bytes, stack := [], [];
    }

    method Varint64(n0: nat)
      modifies this`bytes
      ensures bytes == old(bytes) + Varint(n0)
    {
      var n := n0;
      while n >= 128
        invariant bytes + Varint(n) == old(bytes) + Varint(n0)
        decreases n
      {
        bytes := bytes + [n % 128 + 128];
        n := n / 128;
      }
      bytes := bytes + [n];
    }

    /** The writer of strings, as their UTF-8 bytes. */
    method Bytes(payload: seq<byte>)
      modifies this`bytes
      ensures bytes == old(bytes) + Varint(|payload|) + payload
    {
      Varint64(|payload|);
      bytes := bytes + payload;
    }

    /** Start a nested message. */
    method Fork()
      modifies this
      ensures bytes == [] && stack == old(stack) + [old(bytes)]
    {
      stack := stack + [bytes];
      bytes := [];
    }

    /** End it: what came before, then the length, then the nested bytes. */
    method Join()
      requires stack != []
      modifies this
      ensures bytes == old(stack)[|old(stack)| - 1] + Varint(|old(bytes)|) + old(bytes)
      ensures stack == old(stack)[..|old(stack)| - 1]
    {
      var chunk := bytes;
      bytes := stack[|stack| - 1];
      stack := stack[..|stack| - 1];
      Bytes(chunk);
    }
  }

  // ---------------------------------------------------------------- the reader

  class Reader {
    const buf: seq<byte>
    var pos: nat

    constructor (buf: seq<byte>)
      ensures this.buf == buf && pos == 0
    {
      this.buf, pos := buf, 0;
    }

    method RawVarint() returns (r: Option<nat>)
      modifies this
      ensures match ReadVarint(buf, old(pos), MAX_VARINT_BYTES)
              case None => r.None?
              case Some((n, after)) => r == Some(n) && pos == after
    {
      var start, value, scale := pos, 0, 1;
      for i := 0 to MAX_VARINT_BYTES
        invariant pos == start + i && scale > 0 && value >= 0
        invariant ReadVarint(buf, start, MAX_VARINT_BYTES) ==
                  match ReadVarint(buf, pos, MAX_VARINT_BYTES - i)
                  case None => None
                  case Some((n, after)) => Some((value + scale * n, after))
      {
        if pos >= |buf| {
          return None;
        }
        var b := buf[pos];
        pos := pos + 1;
        if b < 128 {
          return Some(value + scale * b);
        }
        Rescale(value, scale, b, buf, pos, MAX_VARINT_BYTES - i - 1);
        value, scale := value + scale * (b - 128), scale * 128;
      }
      return None;
    }

    method Uint32() returns (r: Option<nat>)
      modifies this
      ensures match ReadUint32(buf, old(pos))
              case None => r.None?
              case Some((n, after)) => r == Some(n) && pos == after
    {
      var raw := RawVarint();
      return if raw.Some? then Some(raw.value % TWO_32) else None;
    }

    method Int32() returns (r: Option<int>)
      modifies this
      ensures match ReadInt32(buf, old(pos))
              case None => r.None?
              case Some((n, after)) => r == Some(n) && pos == after
    {
      var raw := RawVarint();
      return if raw.Some? then Some(Signed(raw.value % TWO_32, TWO_32)) else None;
    }

    method Int64() returns (r: Option<int>)
      modifies this
      ensures match ReadInt64(buf, old(pos))
              case None => r.None?
              case Some((n, after)) => r == Some(n) && pos == after
    {
      var raw := RawVarint();
      return if raw.Some? then Some(Signed(raw.value % TWO_64, TWO_64)) else None;
    }

    method Bytes() returns (r: Option<seq<byte>>)
      modifies this
      ensures match ReadBytes(buf, old(pos))
              case None => r.None?
              case Some((payload, after)) => r == Some(payload) && pos == after
    {
      var n := Uint32();
      if n.None? || pos + n.value > |buf| {
        return None;
      }
      r := Some(buf[pos..pos + n.value]);
      pos := pos + n.value;
    }

    method SkipField(wireType: nat) returns (ok: bool)
      modifies this
      ensures match Skip(buf, old(pos), wireType)
              case None => !ok
              case Some(after) => ok && pos == after
    {
      if wireType == 0 {
        ghost var start := pos;
        while pos < |buf| && buf[pos] >= 128
          invariant SkipVarint(buf, pos) == SkipVarint(buf, start)
          decreases |buf| - pos
        {
          pos := pos + 1;
        }
        ok := pos < |buf|;
        pos := pos + 1;
      } else if wireType == 1 {
        pos := pos + 8;
        ok := pos <= |buf|;
      } else if wireType == 2 {
        var payload := Bytes();
        ok := payload.Some?;
      } else if wireType == 5 {
        pos := pos + 4;
        ok := pos <= |buf|;
      } else {
        ok := false;
      }
    }
  }

  lemma Rescale(value: nat, scale: nat, b: byte, buf: seq<byte>, pos: nat, budget: nat)
    requires b >= 128
    ensures var rest := ReadVarint(buf, pos, budget);
            rest.Some? ==>
              (value + scale * (b - 128 + 128 * rest.value.0)
               == (value + scale * (b - 128)) + scale * 128 * rest.value.0)
    ensures value + scale * (b - 128) >= 0
  {
  }

  // ---------------------------------------------------------------- reading what was written

  /** The bytes stand in the buffer at a position. */
  ghost predicate At(buf: seq<byte>, pos: nat, bytes: seq<byte>) {
    pos + |bytes| <= |buf| && buf[pos..pos + |bytes|] == bytes
  }

  lemma AtConcat(buf: seq<byte>, pos: nat, a: seq<byte>, b: seq<byte>)
    ensures At(buf, pos, a + b) <==> At(buf, pos, a) && At(buf, pos + |a|, b)
  {
    if pos + |a + b| <= |buf| {
      var whole := buf[pos..pos + |a + b|];
      assert whole == buf[pos..pos + |a|] + buf[pos + |a|..pos + |a| + |b|];
      if whole == a + b {
        assert whole[..|a|] == a && whole[|a|..] == b;
      }
    }
  }

  function Pow128(budget: nat): nat {
    if budget == 0 then 1 else 128 * Pow128(budget - 1)
  }

  lemma {:induction false} ReadWritten(buf: seq<byte>, pos: nat, n: nat, budget: nat)
    requires At(buf, pos, Varint(n)) && n < Pow128(budget) && budget >= 1
    ensures ReadVarint(buf, pos, budget) == Some((n, pos + |Varint(n)|))
    decreases budget
  {
    if n < 128 {
      assert buf[pos] == buf[pos..pos + 1][0];
    } else {
      AtConcat(buf, pos, [n % 128 + 128], Varint(n / 128));
      assert buf[pos] == buf[pos..pos + 1][0];
      ReadWritten(buf, pos + 1, n / 128, budget - 1);
    }
  }

  lemma TenBytesHold64Bits()
    ensures TWO_64 <= Pow128(MAX_VARINT_BYTES)
  {
    assert Pow128(1) == 128;
    assert Pow128(2) == 16384;
    assert Pow128(3) == 2097152;
    assert Pow128(4) == 268435456;
    assert Pow128(5) == 34359738368;
    assert Pow128(6) == 4398046511104;
    assert Pow128(7) == 562949953421312;
    assert Pow128(8) == 72057594037927936;
    assert Pow128(9) == 9223372036854775808;
  }

  /** The worked examples of the Protocol Buffers Encoding guide: 1, 150, and -2 in 64 bits. */
  lemma GuideVarints(minusTwo: nat)
    requires minusTwo == Unsigned64(-2)
    ensures Varint(1) == [0x01] && Varint(150) == [0x96, 0x01]
    ensures Varint(minusTwo) == [0xfe] + seq(8, _ => 0xff) + [0x01]
  {
    var rest := minusTwo / 128;
    assert minusTwo == 128 * rest + 126;
    EightPowers();
    AllOnes(8, rest);
    assert Varint(minusTwo) == [0xfe] + Varint(rest);
  }

  lemma EightPowers()
    ensures Pow128(8) * 256 == TWO_64
  {
    assert Pow128(2) == 16384 && Pow128(4) == 268435456;
  }

  lemma {:induction false} AllOnes(n: nat, m: nat)
    requires m == Pow128(n) * 2 - 1
    ensures Varint(m) == seq(n, _ => 0xff) + [0x01]
    decreases n
  {
    if n > 0 {
      assert Pow128(n) == 128 * Pow128(n - 1);
      assert m == 128 * (Pow128(n - 1) * 2 - 1) + 127;
      AllOnes(n - 1, m / 128);
      assert seq(n, _ => 0xff) == [0xff] + seq(n - 1, _ => 0xff);
    }
  }

  /** A number that does not end in the input is refused, and so is a text that is longer than the rest of it. */
  lemma {:induction false} UnendedVarintIsRefused(buf: seq<byte>, pos: nat, budget: nat)
    requires forall i :: pos <= i < |buf| ==> buf[i] >= 128
    ensures ReadVarint(buf, pos, budget) == None
    decreases budget
  {
    if pos < |buf| && budget > 0 {
      UnendedVarintIsRefused(buf, pos + 1, budget - 1);
    }
  }

  lemma LongTextIsRefused(buf: seq<byte>, pos: nat, n: nat)
    requires At(buf, pos, Varint(n)) && n < TWO_32 && |buf| < pos + |Varint(n)| + n
    ensures ReadBytes(buf, pos) == None
  {
    ReadLength(buf, pos, n);
  }

  /** A 64-bit varint of any value is read back whole, and every narrower read takes its low bits. */
  lemma ReadWritten64(buf: seq<byte>, pos: nat, n: nat)
    requires At(buf, pos, Varint(n)) && n < TWO_64
    ensures var after := pos + |Varint(n)|;
            && ReadUint32(buf, pos) == Some((n % TWO_32, after))
            && ReadInt32(buf, pos) == Some((Signed(n % TWO_32, TWO_32), after))
            && ReadInt64(buf, pos) == Some((Signed(n % TWO_64, TWO_64), after))
  {
    TenBytesHold64Bits();
    ReadWritten(buf, pos, n, MAX_VARINT_BYTES);
  }

  lemma {:induction false} SkipWritten(buf: seq<byte>, pos: nat, n: nat)
    requires At(buf, pos, Varint(n))
    ensures SkipVarint(buf, pos) == Some(pos + |Varint(n)|)
    decreases n
  {
    if n < 128 {
      assert buf[pos] == buf[pos..pos + 1][0];
    } else {
      AtConcat(buf, pos, [n % 128 + 128], Varint(n / 128));
      assert buf[pos] == buf[pos..pos + 1][0];
      SkipWritten(buf, pos + 1, n / 128);
    }
  }

  lemma ReadWrittenBytes(buf: seq<byte>, pos: nat, payload: seq<byte>)
    requires At(buf, pos, Varint(|payload|) + payload) && |payload| < TWO_32
    ensures ReadBytes(buf, pos) == Some((payload, pos + |Varint(|payload|)| + |payload|))
  {
    var n := |payload|;
    AtConcat(buf, pos, Varint(n), payload);
    ReadLength(buf, pos, n);
  }

  lemma ReadLength(buf: seq<byte>, pos: nat, n: nat)
    requires At(buf, pos, Varint(n)) && n < TWO_32
    ensures ReadUint32(buf, pos) == Some((n, pos + |Varint(n)|))
  {
    ReadWritten64(buf, pos, n);
  }

  /** Signed numbers survive the trip through 64 unsigned bits, in either width. */
  lemma SignedRoundTrip(n: int)
    ensures 0 <= Unsigned64(n) < TWO_64
    ensures -(TWO_64 / 2) <= n < TWO_64 / 2 ==> Signed(Unsigned64(n), TWO_64) == n
    ensures -(TWO_32 / 2) <= n < TWO_32 / 2 ==> Signed(Unsigned64(n) % TWO_32, TWO_32) == n
  {
  }
}
