/**
  Streaming MD5 as in talk/base/md5c.c, on a little-endian machine with 32-bit
  words, for an arbitrary compression function.

  `Digest` is the definition of sections 3.1 to 3.4 of RFC 1321 on the whole
  message.  `Context` buffers its input and counts bits in two words; `Hash`
  states that any sequence of updates followed by the final step computes it.
*/
module Md5 {
  import opened Prelude

  const WORD_LIMIT: nat := 0x1_0000_0000
  const COUNT_LIMIT: nat := 0x1_0000_0000_0000_0000

  type word = n: nat | n < 0x1_0000_0000

  datatype Words = Words(a: word, b: word, c: word, d: word)

  /** MD5Transform: a state and sixteen words of input. */
  type Compress = (Words, seq<word>) -> Words

  const INIT := Words(0x67452301, 0xefcdab89, 0x98badcfe, 0x10325476)

  // ---------------------------------------------------------------------
  // The definition
  // ---------------------------------------------------------------------

  /** Four bytes, least significant first. */
  function Bytes(w: word): (s: seq<byte>)
    ensures |s| == 4
  {
    [w % 256, w / 256 % 256, w / 65536 % 256, w / 16777216 % 256]
  }

  function WordOf(s: seq<byte>): (w: word)
    requires |s| == 4
  {
    s[0] as int + 256 * s[1] as int + 65536 * s[2] as int + 16777216 * s[3] as int
  }

  function ToWords(s: seq<byte>): seq<word>
    requires |s| % 4 == 0
  {
    if s == [] then [] else [WordOf(s[..4])] + ToWords(s[4..])
  }

  function Zeros(n: nat): (s: seq<byte>)
    ensures |s| == n
  {
    seq(n, _ => 0)
  }

  /** Section 3.1: the zeros behind the first padding byte. */
  function PadCount(n: nat): nat { if n % 64 < 56 then 55 - n % 64 else 119 - n % 64 }

  /** Section 3.2: a bit count as two words, low word first. */
  function CountBytes(bits: nat): (s: seq<byte>)
    ensures |s| == 8
  {
    Bytes(bits % WORD_LIMIT) + Bytes(bits / WORD_LIMIT % WORD_LIMIT)
  }

  function Pad(m: seq<byte>): seq<byte> {
    m + [0x80] + Zeros(PadCount(|m|)) + CountBytes(8 * |m|)
  }

  /** Sections 3.3 and 3.4: the blocks of s one after the other. */
  function Fold(f: Compress, s: seq<byte>): Words
    requires |s| % 64 == 0
  {
    if s == [] then INIT
    else f(Fold(f, s[..|s| - 64]), ToWords(s[|s| - 64..]))
  }

  function Output(w: Words): seq<byte> { Bytes(w.a) + Bytes(w.b) + Bytes(w.c) + Bytes(w.d) }

  function Digest(f: Compress, m: seq<byte>): seq<byte> {
    PadLength(m);
    Output(Fold(f, Pad(m)))
  }

  /** The padded length is a multiple of 64, ... */
  lemma PadLength(m: seq<byte>)
    ensures |Pad(m)| % 64 == 0
  {
    hide PadCount, CountBytes, Zeros;
    PadSum(|m|);
  }

  lemma PadSum(n: nat)
    ensures (n + 9 + PadCount(n)) % 64 == 0
  {
  }

  /** ... and no smaller number of zeros reaches it. */
  lemma PadIsLeast(n: nat, k: nat)
    requires (n + 1 + k) % 64 == 56
    ensures PadCount(n) <= k
  {
  }

  lemma FoldBlock(f: Compress, s: seq<byte>, block: seq<byte>)
    requires |s| % 64 == 0 && |block| == 64
    ensures Fold(f, s + block) == f(Fold(f, s), ToWords(block))
  {
  }

  lemma BytesRoundTrip(w: word)
    ensures WordOf(Bytes(w)) == w
  {
    var a := w / 0x100;
    var b := a / 0x100;
    assert w / 0x1_0000 == b && w / 0x100_0000 == b / 0x100;
    assert w == 0x100 * a + w % 0x100 && a == 0x100 * b + a % 0x100 && b == 0x100 * (b / 0x100) + b % 0x100;
  }

  lemma SplitWords(n: nat)
    requires n < COUNT_LIMIT
    ensures n / WORD_LIMIT < WORD_LIMIT && n == n % WORD_LIMIT + WORD_LIMIT * (n / WORD_LIMIT)
    ensures n / WORD_LIMIT % WORD_LIMIT == n / WORD_LIMIT
  {
  }

  lemma CountRoundTrip(m: nat, n: nat)
    requires m < COUNT_LIMIT && n < COUNT_LIMIT && CountBytes(m) == CountBytes(n)
    ensures m == n
  {
    hide Bytes, WordOf;
    SplitWords(m);
    SplitWords(n);
    BytesRoundTrip(m % WORD_LIMIT);
    BytesRoundTrip(n % WORD_LIMIT);
    BytesRoundTrip(m / WORD_LIMIT);
    BytesRoundTrip(n / WORD_LIMIT);
    var s := CountBytes(m);
    assert s[..4] == Bytes(m % WORD_LIMIT) == Bytes(n % WORD_LIMIT);
    assert s[4..] == Bytes(m / WORD_LIMIT) == Bytes(n / WORD_LIMIT);
  }

  /** Padding loses nothing: short enough messages with equal padding are equal. */
  lemma PadIsInjective(m: seq<byte>, n: seq<byte>)
    requires 8 * |m| < COUNT_LIMIT && 8 * |n| < COUNT_LIMIT && Pad(m) == Pad(n)
    ensures m == n
  {
    var p := Pad(m);
    assert p[|p| - 8..] == CountBytes(8 * |m|);
    assert p[|p| - 8..] == CountBytes(8 * |n|);
    CountRoundTrip(8 * |m|, 8 * |n|);
    assert m == p[..|m|] == n;
  }

  // ---------------------------------------------------------------------
  // Where the bytes are
  // ---------------------------------------------------------------------

  /** Section 3.1: a one bit, then zeros up to the last eight bytes, and never more than fit a block with them. */
  lemma PadMeans(m: seq<byte>)
    ensures var p, n := Pad(m), |m|;
      && n + 9 <= |p| <= n + 72 && |p| % 64 == 0 && p[..n] == m && p[n] == 0x80
      && forall i :: n < i < |p| - 8 ==> p[i] == 0
  {
    PadLength(m);
    assert Pad(m)[..|m|] == m;
  }

  function Power256(k: nat): (p: nat)
    ensures p > 0
  {
    if k == 0 then 1 else 256 * Power256(k - 1)
  }

  /** Section 3.2: the last eight bytes are the low 64 bits of the bit count, least significant byte first. */
  lemma PadCountMeans(m: seq<byte>, k: nat)
    requires k < 8
    ensures Pad(m)[|Pad(m)| - 8 + k] == 8 * |m| / Power256(k) % 256
  {
    var p, bits := Pad(m), 8 * |m|;
    assert p[|p| - 8..] == CountBytes(bits);
    assert p[|p| - 8 + k] == p[|p| - 8..][k];
    hide Pad, CountBytes;
    CountByte(bits, k);
  }

  lemma CountByte(bits: nat, k: nat)
    requires k < 8
    ensures CountBytes(bits)[k] == bits / Power256(k) % 256
  {
    if k < 4 {
      ByteOf(bits % WORD_LIMIT, k);
      LowByte(bits, k);
    } else {
      ByteOf(bits / WORD_LIMIT % WORD_LIMIT, k - 4);
      LowByte(bits / WORD_LIMIT, k - 4);
      HighByte(bits, k - 4);
    }
    hide Bytes;
  }

  lemma Powers()
    ensures Power256(0) == 1 && Power256(1) == 256 && Power256(2) == 65536 && Power256(3) == 16777216
  {
  }

  /** The bytes of a word, least significant first. */
  lemma ByteOf(w: word, k: nat)
    requires k < 4
    ensures Bytes(w)[k] == w / Power256(k) % 256
  {
    Powers();
  }

  lemma LowByte(n: nat, k: nat)
    requires k < 4
    ensures n % WORD_LIMIT / Power256(k) % 256 == n / Power256(k) % 256
  {
    Powers();
    var q, r := n / WORD_LIMIT, n % WORD_LIMIT;
    if k == 0 {
      SameByte(r, 16777216 * q);
    } else if k == 1 {
      assert n / 256 == r / 256 + 16777216 * q;
      SameByte(r / 256, 65536 * q);
    } else if k == 2 {
      assert n / 65536 == r / 65536 + 65536 * q;
      SameByte(r / 65536, 256 * q);
    } else {
      assert n / 16777216 == r / 16777216 + 256 * q;
      SameByte(r / 16777216, q);
    }
  }

  lemma SameByte(r: nat, q: nat)
    ensures (r + 256 * q) % 256 == r % 256
  {
  }

  lemma HighPowers()
    ensures Power256(4) == 0x1_0000_0000 && Power256(5) == 0x100_0000_0000
    ensures Power256(6) == 0x1_0000_0000_0000 && Power256(7) == 0x100_0000_0000_0000
  {
    Powers();
    assert Power256(4) == 256 * Power256(3);
    assert Power256(5) == 256 * Power256(4);
    assert Power256(6) == 256 * Power256(5);
    assert Power256(7) == 256 * Power256(6);
  }

  lemma HighByte(n: nat, k: nat)
    requires k < 4
    ensures n / WORD_LIMIT / Power256(k) == n / Power256(k + 4)
  {
    Powers();
    HighPowers();
    hide Power256;
    if k == 1 {
      assert n / WORD_LIMIT / 256 == n / 0x100_0000_0000;
    } else if k == 2 {
      assert n / WORD_LIMIT / 65536 == n / 0x1_0000_0000_0000;
    } else if k == 3 {
      assert n / WORD_LIMIT / 16777216 == n / 0x100_0000_0000_0000;
    }
  }

  /** A compression that keeps the state: the digest is the four words of section 3.3 of RFC 1321. */
  lemma KeptDigest(m: seq<byte>)
    ensures Digest((s, w) => s, m) ==
            [0x01, 0x23, 0x45, 0x67, 0x89, 0xab, 0xcd, 0xef, 0xfe, 0xdc, 0xba, 0x98, 0x76, 0x54, 0x32, 0x10]
  {
    PadLength(m);
    hide Pad;
    KeptFold((s, w) => s, Pad(m));
  }

  lemma {:induction false} KeptFold(f: Compress, s: seq<byte>)
    requires |s| % 64 == 0 && forall t, w :: f(t, w) == t
    ensures Fold(f, s) == INIT
  {
    if s != [] { KeptFold(f, s[..|s| - 64]); }
  }

  /** A compression that forgets the state and keeps four words of its input, from the one at k on. */
  function Keep(k: nat): Compress {
    (s, w) => if k + 4 <= |w| then Words(w[k], w[k + 1], w[k + 2], w[k + 3]) else s
  }

  /** With it the digest is the sixteen bytes of these words in the last padded block, in their order. */
  lemma LastBlockDigest(m: seq<byte>, k: nat)
    requires k <= 12
    ensures var p := Pad(m);
            |p| >= 64 && Digest(Keep(k), m) == p[|p| - 64 + 4 * k..|p| - 48 + 4 * k]
  {
    var p := Pad(m);
    PadMeans(m);
    PadLength(m);
    hide Pad, Output, Keep, ToWords;
    KeepOutput(p[|p| - 64..], k, Fold(Keep(k), p[..|p| - 64]));
    PartOfPart(p, |p| - 64, 4 * k, 16);
  }

  lemma KeepOutput(block: seq<byte>, k: nat, s: Words)
    requires |block| == 64 && k <= 12
    ensures Output(Keep(k)(s, ToWords(block))) == block[4 * k..4 * k + 16]
  {
    hide Output, ToWords;
    ToWordsAt(block, k);
    ToWordsAt(block, k + 1);
    ToWordsAt(block, k + 2);
    ToWordsAt(block, k + 3);
    OutputOf(block, k, ToWords(block));
  }

  lemma PartOfPart(s: seq<byte>, at: nat, from: nat, n: nat)
    requires at + from + n <= |s|
    ensures s[at..][from..from + n] == s[at + from..at + from + n]
  {
  }

  lemma OutputOf(block: seq<byte>, k: nat, w: seq<word>)
    requires |block| == 64 && k <= 12 && |w| == 16
    requires forall i :: k <= i < k + 4 ==> Bytes(w[i]) == block[4 * i..4 * i + 4]
    ensures Output(Words(w[k], w[k + 1], w[k + 2], w[k + 3])) == block[4 * k..4 * k + 16]
  {
    hide Bytes;
    assert Bytes(w[k]) == block[4 * k..4 * k + 4] && Bytes(w[k + 1]) == block[4 * k + 4..4 * k + 8];
    assert Bytes(w[k + 2]) == block[4 * k + 8..4 * k + 12] && Bytes(w[k + 3]) == block[4 * k + 12..4 * k + 16];
  }

  lemma {:induction false} ToWordsAt(s: seq<byte>, k: nat)
    requires |s| % 4 == 0 && 4 * k < |s|
    ensures |ToWords(s)| == |s| / 4 && Bytes(ToWords(s)[k]) == s[4 * k..4 * k + 4]
  {
    hide Bytes, WordOf;
    ToWordsLength(s);
    if k == 0 {
      BytesOfWord(s[..4]);
    } else {
      ToWordsAt(s[4..], k - 1);
      assert s[4..][4 * (k - 1)..4 * (k - 1) + 4] == s[4 * k..4 * k + 4];
    }
  }

  lemma {:induction false} ToWordsLength(s: seq<byte>)
    requires |s| % 4 == 0
    ensures |ToWords(s)| == |s| / 4
  {
    if s != [] { ToWordsLength(s[4..]); }
  }

  lemma BytesOfWord(s: seq<byte>)
    requires |s| == 4
    ensures Bytes(WordOf(s)) == s
  {
    WordDigits(s[0], s[1], s[2], s[3]);
  }

  lemma WordDigits(a: byte, b: byte, c: byte, d: byte)
    ensures var w: nat := a + 256 * b + 65536 * c + 16777216 * d;
            w < WORD_LIMIT && w % 256 == a && w / 256 % 256 == b && w / 65536 % 256 == c && w / 16777216 % 256 == d
  {
    var w: nat := a + 256 * b + 65536 * c + 16777216 * d;
    var y: nat := b + 256 * c + 65536 * d;
    var z: nat := c + 256 * d;
    LastDigit(w, a, y);
    LastDigit(y, b, z);
    LastDigit(z, c, d);
    assert w / 65536 == w / 256 / 256 && w / 16777216 == w / 256 / 256 / 256;
  }

  lemma LastDigit(w: nat, a: byte, y: nat)
    requires w == a + 256 * y
    ensures w % 256 == a && w / 256 == y
  {
  }

  // ---------------------------------------------------------------------
  // The counter
  // ---------------------------------------------------------------------

  /** Adding eight times len to a two-word count, with the carry of the source. */
  lemma CountAdds(low: word, high: word, total: nat, len: nat)
    requires len < WORD_LIMIT
    requires low + WORD_LIMIT * high == 8 * total % COUNT_LIMIT
    ensures var low' := (low + 8 * len % WORD_LIMIT) % WORD_LIMIT;
            var carry := if low' < low then 1 else 0;
            var high' := (high + carry + len / 536870912) % WORD_LIMIT;
            low' + WORD_LIMIT * high' == 8 * (total + len) % COUNT_LIMIT
  {
    var shifted := 8 * len % WORD_LIMIT;
    var top := len / 536870912;
    assert 8 * len == shifted + WORD_LIMIT * top;
    var low' := (low + shifted) % WORD_LIMIT;
    var carry := if low' < low then 1 else 0;
    assert low + shifted == low' + WORD_LIMIT * carry;
    var high' := (high + carry + top) % WORD_LIMIT;
    var q := (high + carry + top) / WORD_LIMIT;
    var r := 8 * total / COUNT_LIMIT;
    assert 8 * (total + len) == low' + WORD_LIMIT * high' + COUNT_LIMIT * (q + r);
    ModuloUnique(8 * (total + len), low' + WORD_LIMIT * high', q + r);
  }

  lemma ModuloUnique(x: nat, r: nat, q: nat)
    requires r < COUNT_LIMIT && x == r + COUNT_LIMIT * q
    ensures x % COUNT_LIMIT == r
  {
  }

  /** The low word tells how many bytes are waiting in the buffer. */
  lemma CountOffset(low: word, high: word, total: nat)
    requires low + WORD_LIMIT * high == 8 * total % COUNT_LIMIT
    ensures low / 8 % 64 == total % 64
  {
    var k := high + WORD_LIMIT * (8 * total / COUNT_LIMIT);
    assert 8 * total == low + WORD_LIMIT * k;
    assert low / 8 == total - 536870912 * k;
    SameOffset(low / 8, total, 8388608 * k);
  }

  lemma SameOffset(x: nat, y: nat, k: nat)
    requires y == x + 64 * k
    ensures x % 64 == y % 64
  {
  }

  lemma AddTwice(x: nat, y: nat)
    ensures (x % WORD_LIMIT + y) % WORD_LIMIT == (x + y) % WORD_LIMIT
  {
  }

  lemma DivUnique(x: nat, r: word, q: nat)
    requires x == r + WORD_LIMIT * q
    ensures x % WORD_LIMIT == r && x / WORD_LIMIT == q
  {
  }

  // ---------------------------------------------------------------------
  // The last blocks
  // ---------------------------------------------------------------------

  /** A message whose last bytes leave room for the count is padded within one block, ... */
  lemma PadOneBlock(m: seq<byte>, n: nat)
    requires n == |m| % 64 <= 55
    ensures |Pad(m)| == |m| - n + 64
    ensures Pad(m)[..|m| - n] == m[..|m| - n]
    ensures Pad(m)[|m| - n..] == m[|m| - n..] + [0x80] + Zeros(55 - n) + CountBytes(8 * |m|)
  {
  }

  /** ... and any other within two. */
  lemma PadTwoBlocks(m: seq<byte>, n: nat)
    requires n == |m| % 64 > 55
    ensures |Pad(m)| == |m| - n + 128
    ensures Pad(m)[..|m| - n] == m[..|m| - n]
    ensures Pad(m)[|m| - n..|m| - n + 64] == m[|m| - n..] + [0x80] + Zeros(63 - n)
    ensures Pad(m)[|m| - n + 64..] == Zeros(56) + CountBytes(8 * |m|)
  {
  }

  lemma Remainder(n: nat, done: nat)
    requires done % 64 == 0 && done <= n < done + 64
    ensures n % 64 == n - done
  {
  }

  class Context {
    const f: Compress
    var buf: Words
    const bits: array<word>
    const inp: array<byte>
    ghost var msg: seq<byte>

    /** What the context knows about the message so far. */
    ghost predicate Valid()
      reads this, bits, inp
    {
      && Shape()
      && Counts(|msg|)
      && var n := |msg| % 64;
         buf == Fold(f, msg[..|msg| - n]) && inp[..n] == msg[|msg| - n..]
    }

    ghost predicate Shape() {
      bits.Length == 2 && inp.Length == 64
    }

    ghost predicate Counts(total: nat)
      requires Shape()
      reads bits
    {
      bits[0] + WORD_LIMIT * bits[1] == 8 * total % COUNT_LIMIT
    }

    constructor (f: Compress)
      ensures Valid() && fresh(bits) && fresh(inp)
      ensures msg == [] && this.f == f
    {
      this.f := f;
      buf, msg := INIT, [];
      bits, inp := new word[2], new byte[64];
      new;
      bits[0], bits[1] := 0, 0;
    }

    method Transform()
      requires Shape()
      modifies this`buf
      ensures buf == f(old(buf), ToWords(inp[..]))
    {
      buf := f(buf, ToWords(inp[..]));
    }

    method Copy(at: nat, data: seq<byte>)
      requires Shape() && at + |data| <= 64
      modifies inp
      ensures inp[at..at + |data|] == data
      ensures inp[..at] == old(inp[..at])
      ensures inp[at + |data|..] == old(inp[at + |data|..])
    {
      forall i | 0 <= i < |data| {
        inp[at + i] := data[i];
      }
    }

    /** The bit count of the first lines of MD5Update. */
    method AddCount(len: nat)
      requires Shape() && Counts(|msg|) && len < WORD_LIMIT
      modifies bits
      ensures Counts(|msg| + len)
    {
      ghost var high: nat := bits[1];
      CountAdds(bits[0], high, |msg|, len);
      AddTwice(high + 1, len / 536870912);
      var t := bits[0];
      bits[0] := (t + 8 * len % WORD_LIMIT) % WORD_LIMIT;
      if bits[0] < t {
        bits[1] := (bits[1] + 1) % WORD_LIMIT;
      }
      bits[1] := (bits[1] + len / 536870912) % WORD_LIMIT;
    }

    /** How many bytes wait in the buffer. */
    method Offset() returns (t: nat)
      requires Shape() && Counts(|msg|)
      ensures t == |msg| % 64
    {
      CountOffset(bits[0], bits[1], |msg|);
      t := bits[0] / 8 % 64;
    }

    /** The first n bytes of `all` are folded into buf; n is a whole number of blocks. */
    ghost predicate Folded(all: seq<byte>, n: nat)
      reads this`buf
    {
      n % 64 == 0 && n <= |all| && buf == Fold(f, all[..n])
    }

    /** Takes the next 64 bytes of `all`, which are in the buffer. */
    method FoldIn(ghost all: seq<byte>, ghost n: nat)
      requires Shape() && Folded(all, n) && n + 64 <= |all| && inp[..] == all[n..n + 64]
      modifies this`buf
      ensures Folded(all, n + 64)
    {
      hide Fold, ToWords;
      FoldBlock(f, all[..n], inp[..]);
      assert all[..n] + inp[..] == all[..n + 64];
      Transform();
    }

    lemma Waiting(data: seq<byte>)
      requires Valid()
      ensures Shape() && Counts(|msg|)
      ensures var t := |msg| % 64; var done := |msg| - t; var all := msg + data;
              Folded(all, done) && inp[..t] == all[done..|msg|] == msg[done..]
    {
      hide Fold, Counts;
      var done := |msg| - |msg| % 64;
      assert (msg + data)[..done] == msg[..done];
    }

    method Update(data: seq<byte>)
      requires Valid() && |data| < WORD_LIMIT
      modifies this`buf, this`msg, bits, inp
      ensures Valid() && msg == old(msg) + data
    {
      Waiting(data);
      hide Valid, Counts, Folded;
      var t := Offset();
      AddCount(|data|);
      ghost var all, done := msg + data, |msg| - t;
      var pos := 0;
      if t > 0 && |data| < 64 - t {
        AddShort(all, data, t, done);
        return;
      }
      if t > 0 {
        FillBlock(all, data, t, done);
        pos := 64 - t;
      }
      AddBlocks(all, data, pos);
    }

    method AddBlocks(ghost all: seq<byte>, data: seq<byte>, from: nat)
      requires Shape() && Counts(|all|) && all == msg + data && from <= |data|
      requires Folded(all, |msg| + from)
      modifies this`buf, this`msg, inp
      ensures Valid() && msg == all
    {
      hide Valid, Counts, Folded;
      assert all[|msg| + from..] == data[from..];
      var pos := Blocks(all, data, from, |msg| + from);
      Copy(0, data[pos..]);
      assert inp[..|data| - pos] == data[pos..];
      Absorbed(all, |msg| + pos);
    }

    /** The data does not complete the waiting block. */
    method AddShort(ghost all: seq<byte>, data: seq<byte>, t: nat, ghost done: nat)
      requires Shape() && Counts(|all|) && Folded(all, done) && t + |data| < 64
      requires done + t + |data| == |all| && inp[..t] + data == all[done..]
      modifies this`msg, inp
      ensures Valid() && msg == all
    {
      hide Counts, Folded;
      Copy(t, data);
      assert inp[..t + |data|] == all[done..];
      Absorbed(all, done);
    }

    /** The data completes the waiting block. */
    method FillBlock(ghost all: seq<byte>, data: seq<byte>, t: nat, ghost done: nat)
      requires Shape() && Folded(all, done) && t < 64 <= t + |data|
      requires done + t + |data| == |all| && inp[..t] + data == all[done..]
      modifies this`buf, inp
      ensures Folded(all, done + 64)
    {
      hide Folded;
      ghost var front := inp[..t];
      Copy(t, data[..64 - t]);
      assert inp[..] == front + data[..64 - t] == (front + data)[..64];
      assert all[done..done + 64] == all[done..][..64];
      FoldIn(all, done);
    }

    /** What is not folded waits in the buffer. */
    ghost method Absorbed(all: seq<byte>, done: nat)
      requires Shape() && Counts(|all|) && Folded(all, done) && |all| - done < 64
      requires inp[..|all| - done] == all[done..]
      modifies this`msg
      ensures Valid() && msg == all
    {
      Remainder(|all|, done);
      msg := all;
    }

    /** The loop over whole blocks. */
    method Blocks(ghost all: seq<byte>, data: seq<byte>, from: nat, ghost done: nat) returns (pos: nat)
      requires Shape() && Folded(all, done) && from <= |data|
      requires done <= |all| && all[done..] == data[from..]
      modifies this`buf, inp
      ensures from <= pos <= |data| && |data| - pos < 64
      ensures Folded(all, done + pos - from)
      ensures done + pos - from <= |all| && all[done + pos - from..] == data[pos..]
    {
      hide Folded;
      pos := from;
      while |data| - pos >= 64
        invariant from <= pos <= |data| && done + pos - from <= |all|
        invariant Folded(all, done + pos - from) && all[done + pos - from..] == data[pos..]
      {
        ghost var n := done + pos - from;
        Copy(0, data[pos..pos + 64]);
        assert inp[..] == data[pos..pos + 64] == data[pos..][..64];
        assert all[n..n + 64] == all[n..][..64];
        assert all[n + 64..] == all[n..][64..] == data[pos..][64..] == data[pos + 64..];
        FoldIn(all, n);
        pos := pos + 64;
      }
    }

    /**
      The digest of the message.  The memset at the end covers a pointer's size,
      not the context's: only the first word of the state is cleared.
    */
    method Final() returns (digest: seq<byte>)
      requires Valid()
      modifies this`buf, inp
      ensures digest == Digest(f, msg)
      ensures |Pad(msg)| % 64 == 0 && buf == Fold(f, Pad(msg)).(a := 0)
      ensures bits[..] == old(bits[..]) && inp[..] == Pad(msg)[|Pad(msg)| - 64..]
    {
      ghost var padded := Pad(msg);
      assert msg + padded[|msg|..] == padded;
      Waiting(padded[|msg|..]);
      PadLength(msg);
      hide Valid, Counts, Folded, CountBytes, Pad;
      var n := Offset();
      ghost var done := PadOut(n);
      StoreCount();
      FoldLast(padded, done);
      digest := Output(buf);
      buf := buf.(a := 0);
    }

    /** The padding up to the count; done tells how much is folded then. */
    method PadOut(n: nat) returns (ghost done: nat)
      requires Shape() && n == |msg| % 64 && Folded(Pad(msg), |msg| - n) && inp[..n] == msg[|msg| - n..]
      modifies this`buf, inp
      ensures done <= |Pad(msg)| && Folded(Pad(msg), done)
      ensures Pad(msg)[done..] == inp[..56] + CountBytes(8 * |msg|)
    {
      hide Folded, Zeros, CountBytes, Pad, PadCount;
      if n > 55 { PadTwoBlocks(msg, n); } else { PadOneBlock(msg, n); }
      done := |msg| - n;
      ghost var rest := inp[..n];
      Copy(n, [0x80]);
      assert inp[..n + 1] == rest + [0x80];
      var count := 63 - n;
      if count < 8 {
        Copy(n + 1, Zeros(count));
        assert inp[..] == rest + [0x80] + Zeros(63 - n);
        FoldIn(Pad(msg), done);
        done := done + 64;
        Copy(0, Zeros(56));
      } else {
        Copy(n + 1, Zeros(count - 8));
        assert inp[..56] == rest + [0x80] + Zeros(55 - n);
      }
    }

    method FoldLast(ghost all: seq<byte>, ghost n: nat)
      requires Shape() && Folded(all, n) && n + 64 == |all| && inp[..] == all[n..]
      modifies this`buf
      ensures |all| % 64 == 0 && buf == Fold(f, all)
    {
      hide Fold;
      FoldIn(all, n);
      assert all[..n + 64] == all;
    }

    /** Appends the two count words, least significant byte first. */
    method StoreCount()
      requires Shape() && Counts(|msg|)
      modifies inp
      ensures inp[..] == old(inp[..56]) + CountBytes(8 * |msg|)
    {
      hide Bytes;
      CountWords(bits[0], bits[1], 8 * |msg|);
      ghost var front := inp[..56];
      Copy(56, Bytes(bits[0]));
      assert inp[..60] == front + Bytes(bits[0]);
      Copy(60, Bytes(bits[1]));
    }
  }

  lemma CountWords(low: word, high: word, bits: nat)
    requires low + WORD_LIMIT * high == bits % COUNT_LIMIT
    ensures CountBytes(bits) == Bytes(low) + Bytes(high)
  {
    hide Bytes;
    var q := high + WORD_LIMIT * (bits / COUNT_LIMIT);
    assert bits == low + WORD_LIMIT * q;
    DivUnique(bits, low, q);
    DivUnique(q, high, bits / COUNT_LIMIT);
  }

  /** Any sequence of updates and the final step give the digest of the concatenation. */
  method Hash(f: Compress, parts: seq<seq<byte>>) returns (digest: seq<byte>)
    requires forall i :: 0 <= i < |parts| ==> |parts[i]| < WORD_LIMIT
    ensures digest == Digest(f, Concat(parts))
  {
    hide Digest, Concat;
    var ctx := new Context(f);
    var i := 0;
    AllParts(parts);
    while i < |parts|
      invariant i <= |parts| && ctx.Valid() && ctx.f == f && fresh(ctx.bits) && fresh(ctx.inp) && fresh(ctx)
      invariant ctx.msg + Concat(parts[i..]) == Concat(parts)
    {
      NextPart(ctx.msg, parts, i);
      ctx.Update(parts[i]);
      i := i + 1;
    }
    NoPart(ctx.msg, parts);
    digest := ctx.Final();
  }

  lemma AllParts(parts: seq<seq<byte>>)
    ensures [] + Concat(parts[0..]) == Concat(parts)
  {
    assert parts[0..] == parts;
  }

  lemma NextPart(msg: seq<byte>, parts: seq<seq<byte>>, i: nat)
    requires i < |parts|
    ensures (msg + parts[i]) + Concat(parts[i + 1..]) == msg + Concat(parts[i..])
  {
    assert parts[i..][1..] == parts[i + 1..];
  }

  lemma NoPart(msg: seq<byte>, parts: seq<seq<byte>>)
    ensures msg + Concat(parts[|parts|..]) == msg
  {
  }
}
