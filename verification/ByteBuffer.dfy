/**
  The growing byte buffer of talk/base/bytebuffer.cc.

  The class refines a plain byte queue, whose operations are the function `Do`:
  `Run` executes any list of operations on the array and answers what the queue
  answers.  `TypedRun` lifts the byte queue to a queue of typed values, so that
  every typed read returns the oldest value not yet read.
*/
module ByteBuffer {
  import opened Prelude

  const DEFAULT_SIZE: nat := 4096

  // ---------------------------------------------------------------------
  // Typed values in network order
  // ---------------------------------------------------------------------

  datatype Value = UInt8(v: nat) | UInt16(v: nat) | UInt32(v: nat) | Text(s: seq<byte>)

  /** What a reader asks for. */
  datatype Kind = Octet | Short | Long | Bytes(len: nat)

  predicate InRange(x: Value) {
    match x
    case UInt8(v) => v < 256
    case UInt16(v) => v < 0x1_0000
    case UInt32(v) => v < 0x1_0000_0000
    case Text(s) => true
  }

  function KindOf(x: Value): Kind {
    match x
    case UInt8(_) => Octet
    case UInt16(_) => Short
    case UInt32(_) => Long
    case Text(s) => Bytes(|s|)
  }

  function Width(k: Kind): nat {
    match k
    case Octet => 1
    case Short => 2
    case Long => 4
    case Bytes(len) => len
  }

  /** HostToNetwork, byte by byte. */
  function Encode(x: Value): (s: seq<byte>)
    requires InRange(x)
    ensures |s| == Width(KindOf(x))
  {
    match x
    case UInt8(v) => [v]
    case UInt16(v) => [v / 0x100, v % 0x100]
    case UInt32(v) => [v / 0x100_0000, v / 0x1_0000 % 0x100, v / 0x100 % 0x100, v % 0x100]
    case Text(s) => s
  }

  function Decode(k: Kind, s: seq<byte>): (x: Value)
    requires |s| == Width(k)
    ensures InRange(x) && KindOf(x) == k
  {
    match k
    case Octet => UInt8(s[0])
    case Short => UInt16(s[0] as int * 0x100 + s[1])
    case Long => UInt32(s[0] as int * 0x100_0000 + s[1] as int * 0x1_0000 + s[2] as int * 0x100 + s[3])
    case Bytes(len) => Text(s)
  }

  lemma DecodeEncode(x: Value)
    requires InRange(x)
    ensures Decode(KindOf(x), Encode(x)) == x
  {
    if x.UInt32? { FourOctets(x.v); }
  }

  lemma FourOctets(v: nat)
    ensures v / 0x100_0000 * 0x100_0000 + v / 0x1_0000 % 0x100 * 0x1_0000 + v / 0x100 % 0x100 * 0x100 + v % 0x100 == v
  {
    var a := v / 0x100;
    var b := a / 0x100;
    assert v / 0x1_0000 == b;
    assert v / 0x100_0000 == b / 0x100;
    assert v == 0x100 * a + v % 0x100 && a == 0x100 * b + a % 0x100 && b == 0x100 * (b / 0x100) + b % 0x100;
  }

  /** Network order: the most significant byte first. */
  lemma NetworkOrder(a: byte, b: byte, c: byte, d: byte, s: seq<byte>)
    ensures Encode(UInt8(a)) == [a] && Encode(UInt16(256 * a + b)) == [a, b] && Encode(Text(s)) == s
    ensures var v := 256 * (256 * (256 * a + b) + c) + d;
            v < 0x1_0000_0000 && Encode(UInt32(v)) == [a, b, c, d]
  {
    var x: nat := 256 * a + b;
    var y: nat := 256 * x + c;
    var v: nat := 256 * y + d;
    LastOctet(a, b);
    LastOctet(x, c);
    LastOctet(y, d);
    assert v / 0x1_0000 == v / 0x100 / 0x100 && v / 0x100_0000 == v / 0x100 / 0x100 / 0x100;
  }

  lemma LastOctet(x: nat, c: byte)
    ensures (256 * x + c) / 0x100 == x && (256 * x + c) % 0x100 == c
  {
  }

  /** Any bytes are the encoding of what is read from them. */
  lemma EncodeDecode(k: Kind, s: seq<byte>)
    requires |s| == Width(k)
    ensures Encode(Decode(k, s)) == s
  {
    match k
    case Octet =>
    case Short => NetworkOrder(s[0], s[1], 0, 0, []);
    case Long => NetworkOrder(s[0], s[1], s[2], s[3], []);
    case Bytes(_) =>
  }

  // ---------------------------------------------------------------------
  // The byte queue
  // ---------------------------------------------------------------------

  datatype Op = Write(x: Value) | Read(k: Kind) | Resize(size: nat) | Shift(size: nat)

  datatype Outcome = Done | Failed | Got(x: Value)

  predicate Legal(op: Op) { op.Write? ==> InRange(op.x) }

  /** A read that asks for too much, or such a shift, does nothing; a small resize cuts the end off. */
  function Do(q: seq<byte>, op: Op): (r: (seq<byte>, Outcome))
    requires Legal(op)
  {
    match op
    case Write(x) => (q + Encode(x), Done)
    case Read(k) => if Width(k) > |q| then (q, Failed) else (q[Width(k)..], Got(Decode(k, q[..Width(k)])))
    case Resize(size) => (q[..Min(|q|, size)], Done)
    case Shift(size) => (if size > |q| then q else q[size..], Done)
  }

  predicate AllLegal(ops: seq<Op>) { forall i :: 0 <= i < |ops| ==> Legal(ops[i]) }

  function DoAll(q: seq<byte>, ops: seq<Op>): (r: (seq<byte>, seq<Outcome>))
    requires AllLegal(ops)
    ensures |r.1| == |ops|
    decreases |ops|
  {
    if ops == [] then (q, [])
    else
      var (q', out) := Do(q, ops[0]);
      var (q'', outs) := DoAll(q', ops[1..]);
      (q'', [out] + outs)
  }

  // ---------------------------------------------------------------------
  // The buffer
  // ---------------------------------------------------------------------

  class ByteBuffer {
    var bytes: array<byte>
    var size: nat
    var start: nat
    var end: nat

    ghost predicate Valid()
      reads this
    {
      bytes.Length == size && start <= end <= size
    }

    /** The bytes that have been written and not read. */
    ghost function Contents(): seq<byte>
      requires Valid()
      reads this, bytes
    {
      bytes[start..end]
    }

    constructor ()
      ensures Valid() && fresh(bytes) && Contents() == [] && size == DEFAULT_SIZE
    {
      start := 0;
      end := 0;
      size := DEFAULT_SIZE;
      bytes := new byte[DEFAULT_SIZE];
    }

    constructor Copy(data: seq<byte>)
      ensures Valid() && fresh(bytes) && Contents() == data && size == |data|
    {
      start := 0;
      end := |data|;
      size := |data|;
      bytes := new byte[|data|](i requires 0 <= i < |data| => data[i]);
    }

    method Length() returns (n: nat)
      requires Valid()
      ensures n == |Contents()|
    {
      n := end - start;
    }

    method Capacity() returns (n: nat)
      requires Valid()
      ensures n == size - start
    {
      n := size - start;
    }

    method ReadBytes(len: nat) returns (ok: bool, val: seq<byte>)
      requires Valid()
      modifies this`start
      ensures Valid()
      ensures ok == (len <= |old(Contents())|)
      ensures ok ==> val == old(Contents())[..len] && Contents() == old(Contents())[len..]
      ensures !ok ==> val == [] && Contents() == old(Contents())
    {
      val := [];
      var length := Length();
      if len > length { return false, val; }
      val := bytes[start..start + len];
      ghost var all := Contents();
      assert forall i :: 0 <= i < |all| ==> all[i] == bytes[start + i];
      assert val == all[..len];
      start := start + len;
      assert Contents() == all[len..];
      ok := true;
    }

    /** Growing adds at least half; shrinking cuts the end off; either way the bytes move to the front. */
    method Resize(wanted: nat)
      requires Valid()
      modifies this
      ensures Valid() && fresh(bytes) && start == 0
      ensures size == if wanted > old(size) then Max(wanted, 3 * old(size) / 2) else wanted
      ensures Contents() == old(Contents())[..Min(|old(Contents())|, wanted)]
    {
      var newSize := if wanted > size then Max(wanted, 3 * size / 2) else wanted;
      var len := Min(end - start, newSize);
      var newBytes := new byte[newSize];
      forall i | 0 <= i < len { newBytes[i] := bytes[start + i]; }
      assert newBytes[..len] == Contents()[..len];
      start := 0;
      end := len;
      size := newSize;
      bytes := newBytes;
    }

    method WriteBytes(val: seq<byte>)
      requires Valid()
      modifies this, bytes
      ensures Valid() && (bytes == old(bytes) || fresh(bytes))
      ensures Contents() == old(Contents()) + val
    {
      var length := Length();
      var capacity := Capacity();
      if length + |val| > capacity {
        Resize(length + |val|);
        assert Contents() == old(Contents());
      }
      Append(val);
    }

    /** The copy in WriteBytes: it ends inside the array. */
    method Append(val: seq<byte>)
      requires Valid() && end + |val| <= size
      modifies this`end, bytes
      ensures Valid() && Contents() == old(Contents()) + val
    {
      forall i | 0 <= i < |val| { bytes[end + i] := val[i]; }
      assert bytes[end..end + |val|] == val;
      assert bytes[start..end + |val|] == bytes[start..end] + bytes[end..end + |val|];
      end := end + |val|;
    }

    method Shift(count: nat)
      requires Valid()
      modifies this, bytes
      ensures Valid() && bytes == old(bytes)
      ensures Contents() == if count > |old(Contents())| then old(Contents()) else old(Contents())[count..]
    {
      var length := Length();
      if count > length { return; }
      end := length - count;
      forall i | 0 <= i < end { bytes[i] := bytes[start + count + i]; }
      start := 0;
    }

    method WriteUInt8(v: nat)
      requires Valid() && v < 256
      modifies this, bytes
      ensures Valid() && (bytes == old(bytes) || fresh(bytes))
      ensures Contents() == old(Contents()) + Encode(UInt8(v))
    {
      WriteBytes([v]);
    }

    method WriteUInt16(v: nat)
      requires Valid() && v < 0x1_0000
      modifies this, bytes
      ensures Valid() && (bytes == old(bytes) || fresh(bytes))
      ensures Contents() == old(Contents()) + Encode(UInt16(v))
    {
      WriteBytes([v / 0x100, v % 0x100]);
    }

    method WriteUInt32(v: nat)
      requires Valid() && v < 0x1_0000_0000
      modifies this, bytes
      ensures Valid() && (bytes == old(bytes) || fresh(bytes))
      ensures Contents() == old(Contents()) + Encode(UInt32(v))
    {
      WriteBytes([v / 0x100_0000, v / 0x1_0000 % 0x100, v / 0x100 % 0x100, v % 0x100]);
    }

    /** Result and new contents of a read of the given kind. */
    ghost predicate HasRead(k: Kind, before: seq<byte>, out: Outcome)
      requires Valid()
      reads this, bytes
    {
      (Contents(), out) == Do(before, Op.Read(k))
    }

    method ReadUInt8() returns (out: Outcome)
      requires Valid()
      modifies this`start
      ensures Valid() && HasRead(Octet, old(Contents()), out)
    {
      var ok, val := ReadBytes(1);
      out := if ok then Got(UInt8(val[0])) else Failed;
    }

    method ReadUInt16() returns (out: Outcome)
      requires Valid()
      modifies this`start
      ensures Valid() && HasRead(Short, old(Contents()), out)
    {
      var ok, val := ReadBytes(2);
      out := if ok then Got(UInt16(val[0] as int * 0x100 + val[1])) else Failed;
    }

    method ReadUInt32() returns (out: Outcome)
      requires Valid()
      modifies this`start
      ensures Valid() && HasRead(Long, old(Contents()), out)
    {
      var ok, val := ReadBytes(4);
      if !ok { return Failed; }
      out := Got(UInt32(val[0] as int * 0x100_0000 + val[1] as int * 0x1_0000 + val[2] as int * 0x100 + val[3]));
    }

    /** Appended to what the caller has, here nothing. */
    method ReadString(len: nat) returns (out: Outcome)
      requires Valid()
      modifies this`start
      ensures Valid() && HasRead(Bytes(len), old(Contents()), out)
    {
      var ok, val := ReadBytes(len);
      out := if ok then Got(Text(val)) else Failed;
    }

    method Write(x: Value)
      requires Valid() && InRange(x)
      modifies this, bytes
      ensures Valid() && (bytes == old(bytes) || fresh(bytes))
      ensures Contents() == old(Contents()) + Encode(x)
    {
      match x
      case UInt8(v) => WriteUInt8(v);
      case UInt16(v) => WriteUInt16(v);
      case UInt32(v) => WriteUInt32(v);
      case Text(s) => WriteBytes(s);
    }

    method Read(k: Kind) returns (out: Outcome)
      requires Valid()
      modifies this`start
      ensures Valid() && HasRead(k, old(Contents()), out)
    {
      match k
      case Octet => out := ReadUInt8();
      case Short => out := ReadUInt16();
      case Long => out := ReadUInt32();
      case Bytes(len) => out := ReadString(len);
    }

    /** Each operation on the array is the operation on the queue. */
    method Perform(op: Op) returns (out: Outcome)
      requires Valid() && Legal(op)
      modifies this, bytes
      ensures Valid() && (bytes == old(bytes) || fresh(bytes))
      ensures (Contents(), out) == Do(old(Contents()), op)
    {
      out := Done;
      match op
      case Write(x) => Write(x);
      case Read(k) => out := Read(k);
      case Resize(wanted) => Resize(wanted);
      case Shift(count) => Shift(count);
    }

    method Run(ops: seq<Op>) returns (outs: seq<Outcome>)
      requires Valid() && AllLegal(ops)
      modifies this, bytes
      ensures Valid() && (bytes == old(bytes) || fresh(bytes))
      ensures Contents() == DoAll(old(Contents()), ops).0 && outs == DoAll(old(Contents()), ops).1
    {
      hide Do, DoAll, Legal;
      outs := [];
      ghost var all := DoAll(Contents(), ops);
      for i := 0 to |ops|
        invariant Valid() && (bytes == old(bytes) || fresh(bytes))
        invariant all.0 == DoAll(Contents(), ops[i..]).0
        invariant all.1 == outs + DoAll(Contents(), ops[i..]).1
      {
        DoAllStep(Contents(), ops, i);
        var out := Perform(ops[i]);
        outs := outs + [out];
      }
      DoNothing(Contents(), ops[|ops|..]);
    }
  }

  lemma DoNothing(q: seq<byte>, ops: seq<Op>)
    requires ops == []
    ensures DoAll(q, ops) == (q, [])
  {
  }

  lemma DoAllStep(q: seq<byte>, ops: seq<Op>, i: nat)
    requires AllLegal(ops) && i < |ops|
    ensures var (q', out) := Do(q, ops[i]);
            && DoAll(q, ops[i..]).0 == DoAll(q', ops[i + 1..]).0
            && DoAll(q, ops[i..]).1 == [out] + DoAll(q', ops[i + 1..]).1
  {
  }

  // ---------------------------------------------------------------------
  // A queue of values
  // ---------------------------------------------------------------------

  predicate AllInRange(xs: seq<Value>) { forall i :: 0 <= i < |xs| ==> InRange(xs[i]) }

  function EncodeAll(xs: seq<Value>): seq<byte>
    requires AllInRange(xs)
  {
    if xs == [] then [] else Encode(xs[0]) + EncodeAll(xs[1..])
  }

  lemma {:induction false} EncodeAppends(xs: seq<Value>, x: Value)
    requires AllInRange(xs) && InRange(x)
    ensures EncodeAll(xs + [x]) == EncodeAll(xs) + Encode(x)
  {
    hide Encode;
    if xs == [] {
      assert xs + [x] == [x];
    } else {
      assert (xs + [x])[1..] == xs[1..] + [x];
      EncodeAppends(xs[1..], x);
    }
  }

  /** Reads ask for the kinds that were written, or for too much; resizes and shifts take nothing away. */
  predicate Agrees(xs: seq<Value>, ops: seq<Op>)
    requires AllInRange(xs)
    decreases |ops|
  {
    ops == [] ||
    match ops[0]
    case Write(x) => InRange(x) && Agrees(xs + [x], ops[1..])
    case Read(k) =>
      if Width(k) > |EncodeAll(xs)| then Agrees(xs, ops[1..])
      else xs != [] && KindOf(xs[0]) == k && Agrees(xs[1..], ops[1..])
    case Resize(size) => |EncodeAll(xs)| <= size && Agrees(xs, ops[1..])
    case Shift(size) => (size == 0 || size > |EncodeAll(xs)|) && Agrees(xs, ops[1..])
  }

  /** What is written, in order. */
  function Writes(ops: seq<Op>): (xs: seq<Value>)
    requires AllLegal(ops)
    ensures AllInRange(xs)
  {
    if ops == [] then [] else (if ops[0].Write? then [ops[0].x] else []) + Writes(ops[1..])
  }

  /** What the reads return, in order. */
  function Results(outs: seq<Outcome>): seq<Value> {
    if outs == [] then [] else (if outs[0].Got? then [outs[0].x] else []) + Results(outs[1..])
  }

  /** The queue of values after an operation. */
  function Left(xs: seq<Value>, op: Op): (ys: seq<Value>)
    requires AllInRange(xs) && Agrees(xs, [op])
    ensures AllInRange(ys)
  {
    match op
    case Write(x) => xs + [x]
    case Read(k) => if Width(k) > |EncodeAll(xs)| then xs else xs[1..]
    case Resize(_) => xs
    case Shift(_) => xs
  }

  lemma OneOperation(xs: seq<Value>, op: Op)
    requires AllInRange(xs) && Agrees(xs, [op])
    ensures Legal(op) && Do(EncodeAll(xs), op).0 == EncodeAll(Left(xs, op))
    ensures xs + Writes([op]) == Results([Do(EncodeAll(xs), op).1]) + Left(xs, op)
  {
    var q := EncodeAll(xs);
    hide Encode, Decode;
    match op
    case Write(x) =>
      EncodeAppends(xs, x);
      assert Writes([op]) == [x];
    case Read(k) =>
      if Width(k) <= |q| {
        ReadOldest(xs);
        assert xs == [xs[0]] + xs[1..];
      }
    case Resize(size) => assert q[..|q|] == q;
    case Shift(size) => assert q[0..] == q;
  }

  lemma ReadOldest(xs: seq<Value>)
    requires AllInRange(xs) && xs != []
    ensures var q, k := EncodeAll(xs), KindOf(xs[0]);
            Width(k) <= |q| && Do(q, Read(k)) == (EncodeAll(xs[1..]), Got(xs[0]))
  {
    hide Encode, Decode;
    var q := EncodeAll(xs);
    DecodeEncode(xs[0]);
    assert q[..|Encode(xs[0])|] == Encode(xs[0]);
    assert q[|Encode(xs[0])|..] == EncodeAll(xs[1..]);
  }

  lemma AgreesStep(xs: seq<Value>, ops: seq<Op>)
    requires AllInRange(xs) && ops != [] && Agrees(xs, ops)
    ensures Agrees(xs, [ops[0]]) && Agrees(Left(xs, ops[0]), ops[1..])
  {
  }

  lemma FirstWrites(ops: seq<Op>)
    requires AllLegal(ops) && ops != []
    ensures Writes(ops) == Writes([ops[0]]) + Writes(ops[1..])
  {
  }

  lemma FirstResult(xs: seq<Value>, ops: seq<Op>)
    requires AllInRange(xs) && AllLegal(ops) && ops != [] && Agrees(xs, ops)
    ensures var (q, out) := Do(EncodeAll(xs), ops[0]);
            && DoAll(EncodeAll(xs), ops).0 == DoAll(q, ops[1..]).0
            && Results(DoAll(EncodeAll(xs), ops).1) == Results([out]) + Results(DoAll(q, ops[1..]).1)
  {
  }

  /** xs behind the values that have been read, and the bytes left. */
  ghost predicate InOrder(xs: seq<Value>, read: seq<Value>, bytes: seq<byte>)
    requires AllInRange(xs)
  {
    read <= xs && bytes == EncodeAll(xs[|read|..])
  }

  /** xs and the written w1 are first, which is read, and ys. */
  lemma InOrderMore(xs: seq<Value>, w1: seq<Value>, w2: seq<Value>, first: seq<Value>, ys: seq<Value>,
                    read: seq<Value>, bytes: seq<byte>)
    requires AllInRange(xs + (w1 + w2)) && AllInRange(ys + w2)
    requires xs + w1 == first + ys && InOrder(ys + w2, read, bytes)
    ensures InOrder(xs + (w1 + w2), first + read, bytes)
  {
    hide AllInRange, EncodeAll;
    assert xs + (w1 + w2) == (xs + w1) + w2;
    assert (first + ys) + w2 == first + (ys + w2);
    assert (first + (ys + w2))[|first + read|..] == (ys + w2)[|read|..];
  }

  /**
    In any interleaving the values read are the oldest values, those in the
    buffer and then those written, in order; the others are left in the buffer.
  */
  lemma {:induction false} TypedRun(xs: seq<Value>, ops: seq<Op>)
    requires AllInRange(xs) && AllLegal(ops) && Agrees(xs, ops)
    ensures InOrder(xs + Writes(ops), Results(DoAll(EncodeAll(xs), ops).1), DoAll(EncodeAll(xs), ops).0)
    decreases |ops|
  {
    if ops == [] {
      assert xs + Writes(ops) == xs;
      assert xs[0..] == xs;
    } else {
      var op, rest := ops[0], ops[1..];
      AgreesStep(xs, ops);
      OneOperation(xs, op);
      FirstWrites(ops);
      FirstResult(xs, ops);
      hide Agrees, EncodeAll, Left, Do, InOrder, Writes, Results, DoAll;
      var ys, out := Left(xs, op), Do(EncodeAll(xs), op).1;
      TypedRun(ys, rest);
      var (q, outs) := DoAll(EncodeAll(ys), rest);
      InOrderMore(xs, Writes([op]), Writes(rest), Results([out]), ys, Results(outs), q);
    }
  }
}
