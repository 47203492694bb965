/**
  The message sender and receiver of talk/base/httpbase.cc.

  `Sender.FlushData` may be interrupted by a blocked stream at every write; what
  reaches the wire is nevertheless exactly the formatted message.  For a chunked
  message that is `ChunkedBody` of some cut of the document into pieces, and
  `ChunkedRoundTrip` says that the parser turns it back into the document,
  however the bytes are delivered (chunked coding: section 3.6.1 of RFC 2616).
*/
module HttpBase {
  import opened Prelude
  import opened HttpParser

  const BUFFER_SIZE: nat := 32768

  // ---------------------------------------------------------------------
  // Chunked coding
  // ---------------------------------------------------------------------

  function HexDigit(d: nat): (c: char)
    requires d < 16
    ensures IsHex(c) && HexValue(c) == d && !IsSpace(c) && c != 'x' && c != 'X'
  {
    if d < 10 then (d + '0' as int) as char else (d - 10 + 'a' as int) as char
  }

  /** The last k hexadecimal digits of n. */
  function HexPad(n: nat, k: nat): (s: string)
    ensures |s| == k
    ensures forall i :: 0 <= i < k ==> IsHex(s[i]) && !IsSpace(s[i]) && s[i] != 'x' && s[i] != 'X'
  {
    if k == 0 then "" else HexPad(n / 16, k - 1) + [HexDigit(n % 16)]
  }

  function Power16(k: nat): (p: nat)
    ensures p > 0
  {
    if k == 0 then 1 else 16 * Power16(k - 1)
  }

  lemma {:induction false} HexPadValue(n: nat, k: nat)
    requires n < Power16(k)
    ensures HexNumber(HexPad(n, k)) == n
  {
    if k > 0 {
      HexPadValue(n / 16, k - 1);
      assert HexPad(n, k)[..k - 1] == HexPad(n / 16, k - 1);
    }
  }

  function Chunk(data: string): string {
    HexPad(|data|, 8) + "\r\n" + data + "\r\n"
  }

  /** What a short chunk looks like. */
  lemma ChunkText(data: string)
    requires |data| < 16
    ensures Chunk(data) == "0000000" + ["0123456789abcdef"[|data|]] + "\r\n" + data + "\r\n"
  {
    ShortPad(|data|);
    hide HexPad;
  }

  lemma ShortPad(n: nat)
    requires n < 16
    ensures HexPad(n, 8) == "0000000" + ["0123456789abcdef"[n]]
  {
    assert HexPad(n, 8) == HexPad(0, 7) + [HexDigit(n)];
    hide HexPad, HexDigit;
    LowerCase(n);
    SevenZeros();
  }

  lemma SevenZeros()
    ensures HexPad(0, 7) == "0000000"
  {
    ZeroPad(7);
    hide HexPad;
  }

  lemma {:induction false} ZeroPad(k: nat)
    ensures HexPad(0, k) == seq(k, _ => '0')
  {
    if k > 0 { ZeroPad(k - 1); }
  }

  function Chunks(pieces: seq<string>): string {
    if pieces == [] then "" else Chunk(pieces[0]) + Chunks(pieces[1..])
  }

  const LAST_CHUNK := "0\r\n\r\n"

  lemma LastChunkText()
    ensures LAST_CHUNK == "0\r\n\r\n"
  {
  }

  function ChunkedBody(pieces: seq<string>): string { Chunks(pieces) + LAST_CHUNK }

  /** Reads of the document: non-empty, and no longer than the buffer. */
  predicate Pieces(pieces: seq<string>) {
    forall i :: 0 <= i < |pieces| ==> 0 < |pieces[i]| <= BUFFER_SIZE
  }

  lemma HexSpans(s: string)
    requires s != "" && forall i :: 0 <= i < |s| ==> IsHex(s[i])
    ensures SpaceSpan(s) == 0 && SignSpan(s) == 0 && PrefixSpan(s) == 0 && HexSpan(s) == |s|
  {
  }

  /** Digits are read as their number, or as the greatest if there are too many. */
  lemma Strtoul16OfHex(s: string)
    requires s != "" && forall i :: 0 <= i < |s| ==> IsHex(s[i])
    ensures Strtoul16(s) == (if HexNumber(s) < SIZE_LIMIT then HexNumber(s) else SIZE_LIMIT - 1, |s|)
  {
    HexSpans(s);
    hide SpaceSpan, SignSpan, PrefixSpan, HexSpan, HexNumber;
    assert s[0..] == s && s[..|s|] == s;
  }

  lemma HexSpanOf(s: string, rest: string)
    requires forall i :: 0 <= i < |s| ==> IsHex(s[i])
    requires rest == "" || !IsHex(rest[0])
    ensures HexSpan(s + rest) == |s|
  {
    assert forall i :: 0 <= i < |s| ==> (s + rest)[i] == s[i];
    assert rest != "" ==> (s + rest)[|s|] == rest[0];
  }

  predicate HexPrefix(s: string) { s == "" || s == "0x" || s == "0X" }

  /** A prefix is read, and what is no digit stops the reading. */
  lemma Strtoul16Reads(zero: string, s: string, rest: string)
    requires HexPrefix(zero) && s != "" && forall i :: 0 <= i < |s| ==> IsHex(s[i])
    requires HexNumber(s) < SIZE_LIMIT
    requires rest == "" || (!IsHex(rest[0]) && rest[0] != 'x' && rest[0] != 'X')
    ensures Strtoul16(zero + (s + rest)) == (HexNumber(s), |zero| + |s|)
  {
    var digits := s + rest;
    HexSpanOf(s, rest);
    Front(s, rest);
    assert |s| < |digits| ==> digits[|s|] == rest[0];
    hide Strtoul16, HexNumber, HexSpan, IsHex, HexPrefix;
    ReadsNumber(zero, digits, s);
  }

  lemma ReadsNumber(zero: string, digits: string, s: string)
    requires HexPrefix(zero) && HexSpan(digits) == |s| > 0 && digits[..|s|] == s
    requires |s| < |digits| ==> digits[|s|] != 'x' && digits[|s|] != 'X'
    requires HexNumber(s) < SIZE_LIMIT
    ensures Strtoul16(zero + digits) == (HexNumber(s), |zero| + |s|)
  {
    PrefixOf(zero, digits, |s|);
    hide Strtoul16, Prefixed16, HexNumber, HexSpan, IsHex, HexPrefix, PrefixSpan;
    PrefixRead(zero, digits, false, 0);
    DigitsRead(digits, |s|, false, |zero|);
    hide Digits16;
    Unsigned(zero + digits);
  }

  lemma DigitsRead(digits: string, n: nat, negative: bool, used: nat)
    requires HexSpan(digits) == n > 0
    ensures Digits16(digits, negative, used) == (Saturate(HexNumber(digits[..n]), negative), used + n)
  {
  }

  lemma PrefixRead(zero: string, digits: string, negative: bool, used: nat)
    requires PrefixSpan(zero + digits) == |zero|
    ensures Prefixed16(zero + digits, negative, used) == Digits16(digits, negative, used + |zero|)
  {
    hide PrefixSpan, Digits16;
    Front(zero, digits);
  }

  lemma Unsigned(s: string)
    requires s != "" && IsHex(s[0])
    ensures Strtoul16(s) == Prefixed16(s, false, 0)
  {
    assert SpaceSpan(s) == 0 && SignSpan(s) == 0;
    hide SpaceSpan, SignSpan, Prefixed16;
    assert s[0..] == s;
  }

  /** In front of a number that is not too large a plus changes nothing and a minus negates. */
  lemma SignReads(sign: char, s: string)
    requires sign == '+' || sign == '-'
    requires s != "" && IsHex(s[0]) && Strtoul16(s).0 != SIZE_UNKNOWN
    ensures var (v, n) := Strtoul16(s);
            Strtoul16([sign] + s) == (if sign == '-' then (SIZE_LIMIT - v) % SIZE_LIMIT else v, n + 1)
  {
    hide *;
    Unsigned(s);
    Signed(sign, s);
    Negating(s);
  }

  lemma Negating(s: string)
    requires s != "" && IsHex(s[0]) && Prefixed16(s, false, 0).0 != SIZE_UNKNOWN
    ensures var (v, n) := Prefixed16(s, false, 0);
      && Prefixed16(s, false, 1) == (v, n + 1)
      && Prefixed16(s, true, 1) == ((SIZE_LIMIT - v) % SIZE_LIMIT, n + 1)
  {
    var c := PrefixSpan(s);
    var digits := s[c..];
    assert HexSpan(digits) > 0;
    hide PrefixSpan, HexSpan, Digits16;
    NegatingDigits(digits, c);
  }

  lemma NegatingDigits(s: string, used: nat)
    requires HexSpan(s) > 0 && Digits16(s, false, used).0 != SIZE_UNKNOWN
    ensures var (v, n) := Digits16(s, false, used);
      && Digits16(s, false, used + 1) == (v, n + 1)
      && Digits16(s, true, used + 1) == ((SIZE_LIMIT - v) % SIZE_LIMIT, n + 1)
  {
    hide HexSpan, HexNumber;
  }

  lemma Signed(sign: char, s: string)
    requires sign == '+' || sign == '-'
    ensures Strtoul16([sign] + s) == Prefixed16(s, sign == '-', 1)
  {
    var text := [sign] + s;
    assert SpaceSpan(text) == 0 && SignSpan(text) == 1;
    hide SpaceSpan, SignSpan, Prefixed16;
    assert text[0..] == text && text[1..] == s;
  }

  lemma Front(s: string, t: string)
    ensures (s + t)[..|s|] == s && (s + t)[|s|..] == t
  {
  }

  lemma PrefixOf(zero: string, digits: string, n: nat)
    requires HexPrefix(zero) && HexSpan(digits) == n > 0
    requires n < |digits| ==> digits[n] != 'x' && digits[n] != 'X'
    ensures var unsigned := zero + digits;
            unsigned != "" && IsHex(unsigned[0]) && PrefixSpan(unsigned) == |zero|
  {
    hide HexSpan;
    assert IsHex(digits[0]) && (n > 1 ==> IsHex(digits[1]));
    assert zero == "" ==> zero + digits == digits;
  }

  /** The sender writes lower case, the most significant digit first. */
  lemma {:induction false} HexPadDigits(n: nat, k: nat, i: nat)
    requires i < k
    ensures HexPad(n, k)[i] == "0123456789abcdef"[n / Power16(k - 1 - i) % 16]
  {
    hide HexDigit;
    if i < k - 1 {
      HexPadDigits(n / 16, k - 1, i);
      DivTwice(n, Power16(k - 2 - i));
    } else {
      LowerCase(n % 16);
    }
  }

  lemma LowerCase(d: nat)
    requires d < 16
    ensures HexDigit(d) == "0123456789abcdef"[d]
  {
  }

  lemma DivTwice(n: nat, p: nat)
    requires p > 0
    ensures n / 16 / p == n / (16 * p)
  {
    var q, w := n / 16, 16 * p;
    DivMod(q, p);
    DivMod(n, w);
    var a, m, c, d := q / p, q % p, n / w, n % w;
    Expand(p, a, m, q);
    SameQuotient(w, a, 16 * m + n % 16, c, d);
  }

  lemma DivMod(n: nat, p: nat)
    requires p > 0
    ensures n == p * (n / p) + n % p && 0 <= n % p < p && n / p >= 0
  {
  }

  lemma Expand(p: nat, a: nat, m: nat, q: nat)
    requires q == p * a + m
    ensures 16 * q == (16 * p) * a + 16 * m
  {
  }

  lemma SameQuotient(p: nat, a: nat, b: nat, c: nat, d: nat)
    requires p * a + b == p * c + d && b < p && d < p
    ensures a == c
  {
    if a < c { Larger(p, a, c); }
    if c < a { Larger(p, c, a); }
  }

  lemma {:induction false} Larger(p: nat, a: nat, c: nat)
    requires a < c
    ensures p * a + p <= p * c
    decreases c
  {
    assert p * c == p * (c - 1) + p;
    if a < c - 1 { Larger(p, a, c - 1); }
  }

  lemma Strtoul16OfHexPad(n: nat)
    requires n < SIZE_LIMIT
    ensures Strtoul16(HexPad(n, 8)) == (n, 8)
  {
    hide Strtoul16;
    assert Power16(8) == SIZE_LIMIT by {
      assert Power16(4) == 0x1_0000;
      assert Power16(8) == 16 * (16 * (16 * (16 * Power16(4))));
    }
    HexPadValue(n, 8);
    Strtoul16OfHex(HexPad(n, 8));
  }

  lemma LineChunkSize(cb: Callbacks, p: Parse, line: string, n: size)
    requires p.done.None? && p.state == ChunkSize && line != ""
    requires Strtoul16(line) == (n, |line|)
    ensures Line(cb, p, line) == p.(dataSize := n, state := if n == 0 then Trailers else Data)
  {
  }

  /** A chunk size with anything behind its digits is refused. */
  lemma ChunkSizeRefused(cb: Callbacks, p: Parse, size: string, tail: string, more: string)
    requires p.done.None? && p.state == ChunkSize && TrimmedLine(size + tail)
    requires size != "" && forall i :: 0 <= i < |size| ==> IsHex(size[i])
    requires HexNumber(size) < SIZE_LIMIT
    requires tail != "" && !IsHex(tail[0]) && tail[0] != 'x' && tail[0] != 'X'
    ensures Run(cb, p, size + tail + "\r\n" + more) ==
            (p.(dataSize := HexNumber(size), done := Some(HeProtocol)), more)
  {
    ChunkSizeRead(size, tail);
    hide Strtoul16, HexNumber, Run, HexSpan;
    ChunkRestRefused(cb, p, size + tail, HexNumber(size), |size|, more);
  }

  lemma ChunkSizeRead(size: string, tail: string)
    requires size != "" && forall i :: 0 <= i < |size| ==> IsHex(size[i])
    requires HexNumber(size) < SIZE_LIMIT
    requires tail != "" && !IsHex(tail[0]) && tail[0] != 'x' && tail[0] != 'X'
    ensures Strtoul16(size + tail) == (HexNumber(size), |size|)
  {
    hide Strtoul16, HexNumber, HexSpan;
    var line := size + tail;
    assert "" + line == line;
    Strtoul16Reads("", size, tail);
  }

  lemma ChunkRestRefused(cb: Callbacks, p: Parse, line: string, n: size, used: nat, more: string)
    requires p.done.None? && p.state == ChunkSize && TrimmedLine(line) && line != ""
    requires Strtoul16(line) == (n, used) && used != |line|
    ensures Run(cb, p, line + "\r\n" + more) == (p.(dataSize := n, done := Some(HeProtocol)), more)
  {
    hide Strtoul16, Run;
    RunStops(cb, p, line, more);
  }

  lemma LineEmpty(cb: Callbacks, p: Parse)
    requires p.done.None? && p.chunked
    ensures p.state == ChunkTerm ==> Line(cb, p, "") == p.(state := ChunkSize)
    ensures p.state == Trailers ==> Line(cb, p, "") == p.(done := Some(HeNone))
  {
  }

  lemma RunChunkEnd(cb: Callbacks, p: Parse, input: string)
    requires p.done.None? && p.state == Data && p.dataSize == 0 && p.chunked
    ensures Run(cb, p, input) == Run(cb, p.(state := ChunkTerm), input)
  {
  }

  /** The parser takes one chunk as its data and is ready for the next. */
  lemma RunChunk(cb: Callbacks, p: Parse, data: string, more: string)
    requires p.done.None? && p.state == ChunkSize && p.chunked
    requires 0 < |data| < SIZE_UNKNOWN && TakesAll(cb, p.log.body, data)
    ensures Run(cb, p, Chunk(data) + more)
         == Run(cb, p.(dataSize := 0, log := p.log.(body := p.log.body + data)), more)
  {
    hide Run, Line, Strtoul16, HexPad, TakesAll;
    var head := HexPad(|data|, 8);
    var tail := data + "\r\n" + more;
    assert Chunk(data) + more == head + "\r\n" + tail;
    RunOneLine(cb, p, head, tail);
    Strtoul16OfHexPad(|data|);
    LineChunkSize(cb, p, head, |data|);
    var q := p.(dataSize := |data|, state := Data);
    assert tail[..|data|] == data;
    RunTakes(cb, q, tail, |data|);
    assert tail[|data|..] == "" + "\r\n" + more;
    var r := Took(q, data);
    RunChunkEnd(cb, r, tail[|data|..]);
    var t := r.(state := ChunkTerm);
    RunOneLine(cb, t, "", more);
    LineEmpty(cb, t);
  }

  lemma RunLastChunk(cb: Callbacks, p: Parse)
    requires p.done.None? && p.state == ChunkSize && p.chunked
    ensures Run(cb, p, LAST_CHUNK) == (p.(state := Trailers, dataSize := 0, done := Some(HeNone)), "")
  {
    hide Run, Line, Strtoul16;
    assert LAST_CHUNK == "0" + "\r\n" + "\r\n";
    RunOneLine(cb, p, "0", "\r\n");
    Strtoul16OfZero();
    LineChunkSize(cb, p, "0", 0);
    var q := p.(state := Trailers, dataSize := 0);
    assert "\r\n" == "" + "\r\n" + "";
    RunOneLine(cb, q, "", "");
    LineEmpty(cb, q);
    RunDone(cb, Line(cb, q, ""), "");
  }

  lemma Strtoul16OfZero()
    ensures Strtoul16("0") == (0, 1)
  {
    hide Strtoul16;
    var zero := "0";
    assert HexNumber(zero) == 16 * HexNumber(zero[..0]) + HexValue('0');
    Strtoul16OfHex(zero);
  }

  lemma RunDone(cb: Callbacks, p: Parse, input: string)
    requires p.done.Some?
    ensures Run(cb, p, input) == (p, input)
  {
  }

  /** The chunked body of any cut of a document is parsed back to the document. */
  lemma {:induction false} RunChunkedBody(cb: Callbacks, p: Parse, pieces: seq<string>)
    requires p.done.None? && p.state == ChunkSize && p.chunked && Pieces(pieces)
    requires TakesAll(cb, p.log.body, Concat(pieces))
    ensures Run(cb, p, ChunkedBody(pieces)) ==
            (p.(state := Trailers, dataSize := 0, done := Some(HeNone),
                log := p.log.(body := p.log.body + Concat(pieces))), "")
    decreases |pieces|
  {
    hide Run, Line, Chunk, TakesAll;
    if pieces == [] {
      RunLastChunk(cb, p);
      assert ChunkedBody(pieces) == LAST_CHUNK;
      assert p.log.body + Concat(pieces) == p.log.body;
    } else {
      var d, rest := pieces[0], pieces[1..];
      assert ChunkedBody(pieces) == Chunk(d) + ChunkedBody(rest);
      hide ChunkedBody;
      assert Concat(pieces) == d + Concat(rest);
      TakesParts(cb, p.log.body, d, Concat(rest));
      RunChunk(cb, p, d, ChunkedBody(rest));
      var q := p.(dataSize := 0, log := p.log.(body := p.log.body + d));
      RunChunkedBody(cb, q, rest);
      assert p.log.body + Concat(pieces) == (p.log.body + d) + Concat(rest);
    }
  }

  /**
    End to end: whatever the cut into pieces on the sending side and the
    fragments on the receiving side, the body is the document, the parse ends
    without error, and no byte is left over.
  */
  lemma ChunkedRoundTrip(cb: Callbacks, p: Parse, document: string, pieces: seq<string>, fragments: seq<string>)
    requires p.done.None? && p.state == ChunkSize && p.chunked && p.log.body == ""
    requires Pieces(pieces) && Concat(pieces) == document && TakesAll(cb, "", document)
    requires Concat(fragments) == ChunkedBody(pieces)
    ensures var (q, rest) := Feed(cb, p, "", fragments);
            q.log.body == document && q.done == Some(HeNone) && rest == ""
  {
    hide Run, Feed, ChunkedBody;
    RunNothing(cb, p);
    FeedIsRun(cb, p, "", fragments);
    assert "" + Concat(fragments) == ChunkedBody(pieces);
    RunChunkedBody(cb, p, pieces);
    assert "" + document == document;
  }

  lemma {:induction false} ChunksGrow(pieces: seq<string>, d: string)
    ensures Chunks(pieces + [d]) == Chunks(pieces) + Chunk(d)
  {
    hide Chunk;
    if pieces == [] {
      assert pieces + [d] == [d] && ([d])[1..] == [];
      assert Chunks([]) == "";
    } else {
      ChunksGrow(pieces[1..], d);
      assert (pieces + [d])[1..] == pieces[1..] + [d];
      assert Chunks(pieces + [d]) == Chunk(pieces[0]) + (Chunks(pieces[1..]) + Chunk(d));
    }
  }

  lemma {:induction false} ChunksAppend(pieces: seq<string>, d: string)
    ensures Chunks(pieces + [d]) == Chunks(pieces) + Chunk(d)
    ensures Concat(pieces + [d]) == Concat(pieces) + d
  {
    ChunksGrow(pieces, d);
    hide Chunk, Chunks;
    if pieces == [] {
      assert pieces + [d] == [d] && ([d])[1..] == [];
      assert Concat<char>([]) == "";
    } else {
      ChunksAppend(pieces[1..], d);
      assert (pieces + [d])[1..] == pieces[1..] + [d];
      assert Concat(pieces + [d]) == pieces[0] + (Concat(pieces[1..]) + d);
    }
  }

  // ---------------------------------------------------------------------
  // Sending
  // ---------------------------------------------------------------------

  function HeaderText(h: (string, string)): string { h.0 + ": " + h.1 + "\r\n" }

  /** A header that would not fit into the empty buffer is discarded. */
  predicate Fits(h: (string, string)) { |HeaderText(h)| < BUFFER_SIZE - 3 }

  function HeaderBytes(headers: seq<(string, string)>): string {
    if headers == [] then ""
    else
      var h := headers[|headers| - 1];
      HeaderBytes(headers[..|headers| - 1]) + if Fits(h) then HeaderText(h) else ""
  }

  /** The message up to and including its first n headers. */
  function Opening(lead: string, headers: seq<(string, string)>, n: nat): string
    requires n <= |headers|
  {
    lead + HeaderBytes(headers[..n])
  }

  lemma OpeningGrows(lead: string, headers: seq<(string, string)>, n: nat)
    requires n < |headers|
    ensures Fits(headers[n]) ==>
              Opening(lead, headers, n + 1) == Opening(lead, headers, n) + HeaderText(headers[n])
    ensures !Fits(headers[n]) ==> Opening(lead, headers, n + 1) == Opening(lead, headers, n)
  {
    assert headers[..n + 1][..n] == headers[..n];
  }

  /** The whole message up to and including a part of its body. */
  function Message(lead: string, headers: seq<(string, string)>, body: string): string {
    lead + HeaderBytes(headers) + "\r\n" + body
  }

  /** What a message looks like. */
  lemma MessageText(lead: string, headers: seq<(string, string)>, name: string, value: string, body: string)
    requires |name| + |value| + 4 < 32765
    ensures Message(lead, [], body) == lead + "\r\n" + body
    ensures |Message(lead, headers, "")| >= 2
    ensures var front := Message(lead, headers, "");
      Message(lead, headers + [(name, value)], body) ==
        front[..|front| - 2] + name + ": " + value + "\r\n" + "\r\n" + body
  {
    var front, all := Message(lead, headers, ""), headers + [(name, value)];
    assert all[..|all| - 1] == headers;
    assert HeaderBytes(all) == HeaderBytes(headers) + (name + ": " + value + "\r\n");
    hide HeaderBytes;
    assert front[..|front| - 2] == lead + HeaderBytes(headers);
  }

  lemma MessageGrows(lead: string, headers: seq<(string, string)>, body: string, more: string)
    ensures Message(lead, headers, body + more) == Message(lead, headers, body) + more
  {
  }

  /** The body after some reads; `open` while the last chunk is still to come. */
  function BodyOf(chunked: bool, open: bool, pieces: seq<string>): string {
    if !chunked then Concat(pieces) else if open then Chunks(pieces) else ChunkedBody(pieces)
  }

  function Framed(chunked: bool, data: string): string { if chunked then Chunk(data) else data }

  lemma BodyGrows(chunked: bool, pieces: seq<string>, d: string)
    ensures BodyOf(chunked, chunked, pieces + [d]) == BodyOf(chunked, chunked, pieces) + Framed(chunked, d)
  {
    ChunksAppend(pieces, d);
  }

  // ---------------------------------------------------------------------
  // The headers read back
  // ---------------------------------------------------------------------

  predicate Trimmed(s: string) { s == "" || (!IsSpace(s[0]) && !IsSpace(s[|s| - 1])) }

  /** A header that stays as it is when it is written on a line, and that the parser accepts. */
  predicate GoodHeader(cb: Callbacks, h: (string, string)) {
    && NoLineFeed(h.0) && NoLineFeed(h.1) && Trimmed(h.1)
    && (forall i :: 0 <= i < |h.0| ==> h.0[i] != ':')
    && cb.onHeader(h.0, h.1) == HeNone
    && (SameNoCase(h.0, "Content-Length") ==> ScanDecimal(h.1).Some?)
    && (SameNoCase(h.0, "Transfer-Encoding") ==> SameNoCase(h.1, "chunked") || SameNoCase(h.1, "identity"))
  }

  /** The header is reported, and the length or coding it declares is noted. */
  function Noting(p: Parse, h: (string, string)): Parse {
    var q := p.(log := p.log.(headers := p.log.headers + [h]));
    if SameNoCase(h.0, "Content-Length") then
      if ScanDecimal(h.1).Some? then q.(dataSize := ScanDecimal(h.1).value) else q
    else if SameNoCase(h.0, "Transfer-Encoding") then q.(chunked := SameNoCase(h.1, "chunked"))
    else q
  }

  /** All headers that fit are noted, in order. */
  function NotingAll(p: Parse, headers: seq<(string, string)>): (q: Parse)
    ensures q.state == p.state && q.done == p.done && q.log.leaders == p.log.leaders
    ensures q.log.completions == p.log.completions && q.log.body == p.log.body
    ensures q.log.headers == p.log.headers + Fitting(headers)
  {
    if headers == [] then p
    else
      var h := headers[|headers| - 1];
      var q := NotingAll(p, headers[..|headers| - 1]);
      if Fits(h) then Noting(q, h) else q
  }

  function Fitting(headers: seq<(string, string)>): seq<(string, string)> {
    if headers == [] then []
    else
      var h := headers[|headers| - 1];
      Fitting(headers[..|headers| - 1]) + if Fits(h) then [h] else []
  }

  /** The line of a header, without the white space at its end. */
  function HeaderLineText(h: (string, string)): string { h.0 + ":" + if h.1 == "" then "" else " " + h.1 }

  lemma SplitsHeader(cb: Callbacks, p: Parse, h: (string, string))
    requires p.done.None? && p.state == Headers && GoodHeader(cb, h)
    ensures Line(cb, p, HeaderLineText(h)) == Noting(p, h)
  {
    NotesField(cb, p, h);
    hide Line, Field, Noting;
    var spaces := if h.1 == "" then "" else " ";
    assert HeaderLineText(h) == h.0 + ":" + spaces + h.1;
    hide HeaderLineText;
    HeaderParts(cb, p, h.0, spaces, h.1);
  }

  lemma NotesField(cb: Callbacks, p: Parse, h: (string, string))
    requires p.done.None? && GoodHeader(cb, h)
    ensures Field(cb, p, h.0, h.1) == Noting(p, h)
  {
    hide SameNoCase, ScanDecimal, NoLineFeed, Trimmed;
  }

  lemma RunAnyLine(cb: Callbacks, p: Parse, s: string, t: string, more: string)
    requires p.done.None? && ReadsLines(p.state) && NoLineFeed(s) && TrimRight(s + "\r") == t
    ensures Run(cb, p, s + "\r\n" + more) == Run(cb, Line(cb, p, t), more)
  {
    hide Line, TrimRight;
    var input := s + "\r\n" + more;
    assert forall i :: 0 <= i < |s| ==> input[i] == s[i];
    assert input[|s|] == '\r' && input[|s| + 1] == '\n';
    assert Find(input, '\n') == |s| + 1;
    assert input[..|s| + 1] == s + "\r";
    assert input[|s| + 2..] == more;
  }

  lemma TrimHeader(h: (string, string))
    requires Trimmed(h.1)
    ensures TrimRight(h.0 + ": " + h.1 + "\r") == HeaderLineText(h)
  {
    var s := h.0 + ": " + h.1;
    if h.1 == "" {
      var t := h.0 + ":";
      assert s == t + " " && (s + "\r")[..|s|] == s;
      assert s[..|t|] == t && t[|t| - 1] == ':';
      assert TrimRight(s) == TrimRight(t) == t;
    } else {
      assert s[|s| - 1] == h.1[|h.1| - 1];
      TrimCr(s);
      assert s == HeaderLineText(h);
    }
  }

  lemma HeaderIsLine(h: (string, string), more: string)
    requires NoLineFeed(h.0) && NoLineFeed(h.1)
    ensures NoLineFeed(h.0 + ": " + h.1)
    ensures HeaderText(h) + more == (h.0 + ": " + h.1) + "\r\n" + more
  {
  }

  lemma HeaderReadsBack(cb: Callbacks, p: Parse, h: (string, string), more: string)
    requires p.done.None? && p.state == Headers && GoodHeader(cb, h)
    ensures Run(cb, p, HeaderText(h) + more) == Run(cb, Noting(p, h), more)
  {
    hide Run, Line, Noting, TrimRight, HeaderLineText, HeaderText, NoLineFeed, Trimmed, ScanDecimal, SameNoCase;
    TrimHeader(h);
    HeaderIsLine(h, more);
    SplitsHeader(cb, p, h);
    RunAnyLine(cb, p, h.0 + ": " + h.1, HeaderLineText(h), more);
  }

  lemma {:induction false} HeadersReadBack(cb: Callbacks, p: Parse, headers: seq<(string, string)>, more: string)
    requires p.done.None? && p.state == Headers
    requires forall i :: 0 <= i < |headers| ==> GoodHeader(cb, headers[i])
    ensures Run(cb, p, HeaderBytes(headers) + more) == Run(cb, NotingAll(p, headers), more)
  {
    hide Run, GoodHeader, Noting, HeaderText, Fits;
    if headers == [] {
      assert HeaderBytes(headers) + more == more;
    } else {
      var n := |headers| - 1;
      var front, h := headers[..n], headers[n];
      if Fits(h) {
        HeadersReadBack(cb, p, front, HeaderText(h) + more);
        HeaderReadsBack(cb, NotingAll(p, front), h, more);
        assert HeaderBytes(headers) + more == HeaderBytes(front) + (HeaderText(h) + more);
      } else {
        HeadersReadBack(cb, p, front, more);
        assert HeaderBytes(headers) == HeaderBytes(front) + "";
        assert HeaderBytes(headers) == HeaderBytes(front);
        assert NotingAll(p, headers) == NotingAll(p, front);
      }
    }
  }

  /** The state behind the empty line. */
  function Opened(cb: Callbacks, line: string, headers: seq<(string, string)>): Parse {
    var p := START.(state := Headers, log := START.log.(leaders := [line]));
    var q := NotingAll(p, headers);
    q.(state := if q.chunked then ChunkSize else Data, dataSize := cb.onHeaderComplete(q.chunked, q.dataSize).1,
       log := q.log.(completions := [(q.chunked, q.dataSize)]))
  }

  /** The coding and the length that are reported when the headers are complete. */
  function Reported(headers: seq<(string, string)>): (bool, size) {
    var q := NotingAll(START, headers);
    (q.chunked, q.dataSize)
  }

  /** A leader and headers that the parser and its callbacks accept. */
  predicate Acceptable(cb: Callbacks, line: string, headers: seq<(string, string)>) {
    && NoLineFeed(line) && (line == "" || !IsSpace(line[|line| - 1])) && cb.onLeader(line) == HeNone
    && (forall i :: 0 <= i < |headers| ==> GoodHeader(cb, headers[i]))
    && (forall chunked, n :: cb.onHeaderComplete(chunked, n).0 == HeNone)
  }

  /** What is sent in front of the body is what is reported. */
  lemma OpeningReadsBack(cb: Callbacks, line: string, headers: seq<(string, string)>, body: string)
    requires Acceptable(cb, line, headers)
    ensures Run(cb, START, Message(line + "\r\n", headers, body)) == Run(cb, Opened(cb, line, headers), body)
    ensures var p := Opened(cb, line, headers);
            && p.log == Log([line], Fitting(headers), [Reported(headers)], "") && p.done.None?
            && p.state == if p.chunked then ChunkSize else Data
  {
    hide Run, HeaderBytes, NotingAll, GoodHeader;
    var p := START.(state := Headers, log := START.log.(leaders := [line]));
    var q := NotingAll(p, headers);
    var after := "\r\n" + body;
    LeaderLine(cb, line, headers);
    EmptyLine(cb, line, headers);
    hide Line, Opened;
    RunOneLine(cb, START, line, HeaderBytes(headers) + after);
    HeadersReadBack(cb, p, headers, after);
    RunOneLine(cb, q, "", body);
    assert "" + "\r\n" + body == after;
    assert Message(line + "\r\n", headers, body) == line + "\r\n" + (HeaderBytes(headers) + after);
  }

  lemma LeaderLine(cb: Callbacks, line: string, headers: seq<(string, string)>)
    requires Acceptable(cb, line, headers)
    ensures Line(cb, START, line) == START.(state := Headers, log := START.log.(leaders := [line]))
  {
    assert START.log.leaders + [line] == [line];
  }

  lemma EmptyLine(cb: Callbacks, line: string, headers: seq<(string, string)>)
    requires Acceptable(cb, line, headers)
    ensures var p := START.(state := Headers, log := START.log.(leaders := [line]));
            var q := NotingAll(p, headers);
            q.state == Headers && q.done.None? && Line(cb, q, "") == Opened(cb, line, headers)
    ensures var p := Opened(cb, line, headers);
            && p.log == Log([line], Fitting(headers), [Reported(headers)], "") && p.done.None?
            && p.state == if p.chunked then ChunkSize else Data
  {
    LeadsAlike(START, START.(state := Headers, log := START.log.(leaders := [line])), headers);
    assert [] + Fitting(headers) == Fitting(headers);
    hide NotingAll, Fitting, GoodHeader;
  }

  // ---------------------------------------------------------------------
  // Chunking, as it is announced and as it is understood
  // ---------------------------------------------------------------------

  predicate IsEncoding(h: (string, string)) { SameNoCase(h.0, "Transfer-Encoding") }

  /** hasHeader: the value of the first header of this name. */
  function Encoding(headers: seq<(string, string)>): Option<string> {
    if headers == [] then None
    else if IsEncoding(headers[0]) then Some(headers[0].1)
    else Encoding(headers[1..])
  }

  method FindEncoding(headers: seq<(string, string)>) returns (encoding: Option<string>)
    ensures encoding == Encoding(headers)
  {
    var i := 0;
    assert headers[0..] == headers;
    while i < |headers|
      invariant i <= |headers| && Encoding(headers) == Encoding(headers[i..])
    {
      if IsEncoding(headers[i]) {
        return Some(headers[i].1);
      }
      assert headers[i..][1..] == headers[i + 1..];
      i := i + 1;
    }
    encoding := None;
  }

  /** The sender compares letter by letter. */
  function SendsChunked(headers: seq<(string, string)>): bool { Encoding(headers) == Some("chunked") }

  /** The parser heeds the last such header that was sent, and ignores case. */
  function ReadsChunked(headers: seq<(string, string)>): bool {
    if headers == [] then false
    else
      var h := headers[|headers| - 1];
      if Fits(h) && IsEncoding(h) then SameNoCase(h.1, "chunked") else ReadsChunked(headers[..|headers| - 1])
  }

  lemma {:induction false} NotesChunked(p: Parse, headers: seq<(string, string)>)
    requires !p.chunked
    ensures NotingAll(p, headers).chunked == ReadsChunked(headers)
  {
    hide SameNoCase, ScanDecimal, Fits;
    if headers != [] {
      var h := headers[|headers| - 1];
      NotesChunked(p, headers[..|headers| - 1]);
      OneName(h.0);
    }
  }

  predicate OneEncoding(headers: seq<(string, string)>) {
    forall i, j :: 0 <= i < j < |headers| ==> !(IsEncoding(headers[i]) && IsEncoding(headers[j]))
  }

  /** With one such header at most, both agree exactly if it is "chunked" itself or nothing the parser takes for it. */
  lemma ChunkingAgrees(headers: seq<(string, string)>)
    requires OneEncoding(headers)
    ensures SendsChunked(headers) == ReadsChunked(headers) <==>
            forall h :: h in headers && IsEncoding(h) ==> (h.1 == "chunked" <==> Fits(h) && SameNoCase(h.1, "chunked"))
  {
    hide SameNoCase, Fits, IsEncoding;
    if i :| 0 <= i < |headers| && IsEncoding(headers[i]) {
      FirstEncoding(headers, i);
      LastEncoding(headers, i);
      assert forall h :: h in headers && IsEncoding(h) ==> h == headers[i];
    } else {
      NoEncoding(headers);
    }
  }

  lemma {:induction false} FirstEncoding(headers: seq<(string, string)>, i: nat)
    requires i < |headers| && IsEncoding(headers[i]) && forall j :: 0 <= j < i ==> !IsEncoding(headers[j])
    ensures Encoding(headers) == Some(headers[i].1)
  {
    if i > 0 {
      forall j | 0 <= j < i - 1 ensures !IsEncoding(headers[1..][j]) { assert headers[1..][j] == headers[j + 1]; }
      FirstEncoding(headers[1..], i - 1);
    }
  }

  lemma {:induction false} LastEncoding(headers: seq<(string, string)>, i: nat)
    requires i < |headers| && IsEncoding(headers[i])
    requires forall j :: 0 <= j < |headers| && j != i ==> !IsEncoding(headers[j])
    ensures ReadsChunked(headers) == (Fits(headers[i]) && SameNoCase(headers[i].1, "chunked"))
  {
    hide SameNoCase, Fits, IsEncoding;
    var front := headers[..|headers| - 1];
    if i < |front| { LastEncoding(front, i); } else { NoEncoding(front); }
  }

  lemma {:induction false} NoEncoding(headers: seq<(string, string)>)
    requires forall j :: 0 <= j < |headers| ==> !IsEncoding(headers[j])
    ensures Encoding(headers) == None && !ReadsChunked(headers)
  {
    hide IsEncoding, SameNoCase, Fits;
    if headers != [] {
      NoEncoding(headers[1..]);
      NoEncoding(headers[..|headers| - 1]);
    }
  }

  /** The value "Chunked" is sent as a plain body and read as chunks. */
  lemma ChunkedCase()
    ensures var headers := [("Transfer-Encoding", "Chunked")]; !SendsChunked(headers) && ReadsChunked(headers)
  {
    var h := ("Transfer-Encoding", "Chunked");
    assert IsEncoding(h) && SameNoCase(h.1, "chunked");
    assert |HeaderText(h)| == 28;
    assert h.1[0] != "chunked"[0];
  }

  datatype Flush = Blocked | Finished | WriteFailed | ReadFailed

  class Sender {
    const buffer: array<char>
    var len: nat
    var chunkData: bool
    const headers: seq<(string, string)>
    var next: nat                 // header_, as an index
    var document: Option<string>  // what is left to read
    var wire: string              // what the stream has accepted
    var sending: bool             // mode_ == HM_SEND

    ghost const lead: string      // request or status line with its CR LF
    ghost const chunked: bool
    ghost const original: Option<string>
    ghost var pieces: seq<string> // the reads of the document so far

    /** Everything that was put into the buffer so far. */
    ghost function Queued(): string
      requires next <= |headers|
      reads this`next, this`pieces, this`chunkData
    {
      if next < |headers| then Opening(lead, headers, next)
      else Message(lead, headers, BodyOf(chunked, chunkData, pieces))
    }

    ghost predicate Progress()
      reads this`next, this`pieces, this`chunkData, this`document
    {
      && next <= |headers|
      && Pieces(pieces)
      && (document.Some? <==> original.Some?)
      && (document.None? ==> pieces == [] && chunkData == chunked)
      && (document.Some? ==> Concat(pieces) + document.value == original.value)
      && (chunkData ==> chunked)
      && (chunked && !chunkData ==> document == Some(""))
      && (next < |headers| ==> pieces == [] && chunkData == chunked)
    }

    /** Nothing in the buffer is lost or sent twice. */
    ghost predicate Valid()
      reads this`next, this`pieces, this`chunkData, this`document, this`len, this`wire, buffer
    {
      && buffer.Length == BUFFER_SIZE && len <= BUFFER_SIZE
      && Progress()
      && wire + buffer[..len] == Queued()
    }

    /** The whole message is on the wire. */
    ghost predicate Sent()
      reads this`next, this`pieces, this`wire
    {
      && next == |headers|
      && (original.None? ==> wire == Message(lead, headers, ""))
      && (original.Some? && !chunked ==> wire == Message(lead, headers, original.value))
      && (original.Some? && chunked ==>
            && Pieces(pieces) && Concat(pieces) == original.value
            && wire == Message(lead, headers, ChunkedBody(pieces)))
    }

    /** send(), up to the first write event. */
    constructor (leadLine: string, headers: seq<(string, string)>, document: Option<string>)
      requires |leadLine| <= BUFFER_SIZE - 3
      ensures Valid() && fresh(buffer) && sending && wire == ""
      ensures lead == leadLine && this.headers == headers
      ensures chunked == SendsChunked(headers) && original == document
    {
      var encoding := FindEncoding(headers);
      buffer := new char[BUFFER_SIZE];
      this.headers, chunked, original := headers, encoding == Some("chunked"), document;
      lead, pieces, wire, sending := leadLine, [], "", true;
      chunkData, this.document, len, next := encoding == Some("chunked"), document, |leadLine|, 0;
      new;
      Store(0, leadLine);
      assert headers[..0] == [];
      assert Chunks([]) == "" && Concat<char>([]) == "";
      PrepareHeaders();
    }

    /** Copies text into the buffer. */
    method Store(at: nat, text: string)
      requires at + |text| <= buffer.Length
      modifies buffer
      ensures buffer[at..at + |text|] == text
      ensures buffer[..at] == old(buffer[..at])
      ensures buffer[at + |text|..] == old(buffer[at + |text|..])
    {
      forall i | 0 <= i < |text| {
        buffer[at + i] := text[i];
      }
    }

    /** The state in which the caller of queue_headers leaves the object. */
    ghost predicate HeadersPending()
      reads this`next, this`pieces, this`chunkData, this`document, this`len, this`wire, buffer
    {
      && buffer.Length == BUFFER_SIZE && len <= BUFFER_SIZE - 3
      && next <= |headers| && pieces == [] && chunkData == chunked && Progress()
      && wire + buffer[..len] == Opening(lead, headers, next)
    }

    /** queue_headers: fills the buffer with whole headers, dropping one that can never fit. */
    method PrepareHeaders()
      requires HeadersPending()
      modifies this`len, this`next, buffer
      ensures Valid()
      ensures next >= old(next)
      ensures old(len) == 0 && old(next) < |headers| ==> next > old(next)
    {
      var full := false;
      while next < |headers| && !full
        invariant HeadersPending()
        invariant next >= old(next)
        invariant old(len) == 0 && next == old(next) ==> len == 0 && !full
        decreases |headers| - next, !full
      {
        full := PrepareHeader();
      }
      if next == |headers| {
        EndHeaders();
      }
    }

    /** The empty line behind the headers. */
    method EndHeaders()
      requires HeadersPending() && next == |headers|
      modifies this`len, buffer
      ensures Valid()
    {
      hide HeaderBytes;
      assert headers[..next] == headers;
      ghost var before := buffer[..len];
      Store(len, "\r\n");
      assert buffer[..len + 2] == before + "\r\n";
      len := len + 2;
      assert BodyOf(chunked, chunkData, pieces) == "";
      assert wire + (before + "\r\n") == (wire + before) + "\r\n" + "";
    }

    /** queue_headers as flush_data calls it. */
    method MoreHeaders()
      requires Valid() && len == 0 && next < |headers|
      modifies this`len, this`next, buffer
      ensures Valid() && next > old(next)
    {
      assert wire + buffer[..0] == wire;
      PrepareHeaders();
    }

    method PrepareHeader() returns (full: bool)
      requires HeadersPending() && next < |headers|
      modifies this`len, this`next, buffer
      ensures HeadersPending()
      ensures full ==> old(len) > 0 && next == old(next) && len == old(len)
      ensures !full ==> next == old(next) + 1
    {
      hide Opening, HeaderText, Concat, Chunks, HeaderBytes, Message, BodyOf;
      OpeningGrows(lead, headers, next);
      var text := HeaderText(headers[next]);
      ghost var before := buffer[..len];
      var n := StoreText(text);
      full := false;
      if len + n < BUFFER_SIZE - 3 {
        assert wire + (before + text) == (wire + before) + text;
        len := len + n;
        next := next + 1;
      } else if len == 0 {
        next := next + 1;
      } else {
        full := true;
      }
    }

    /** Copies text behind what is in the buffer, as strcpyn does: it leaves one place free. */
    method StoreText(text: string) returns (n: nat)
      requires buffer.Length == BUFFER_SIZE && len < BUFFER_SIZE
      modifies buffer
      ensures n == Min(|text|, BUFFER_SIZE - len - 1) && buffer[..len] == old(buffer[..len])
      ensures n == |text| ==> buffer[..len + n] == old(buffer[..len]) + text
    {
      var room := BUFFER_SIZE - len;
      n := if |text| < room then |text| else room - 1;
      ghost var before := buffer[..len];
      Store(len, text[..n]);
      assert buffer[..len + n] == before + text[..n];
    }

    /** What is not written moves to the front. */
    method MoveFront(start: nat)
      requires start <= len <= buffer.Length
      modifies this`len, buffer
      ensures len == old(len) - start && buffer[..len] == old(buffer[start..len])
    {
      len := len - start;
      forall i | 0 <= i < len {
        buffer[i] := buffer[start + i];
      }
    }

    /**
      Writes out the buffer.  The stream takes `room` bytes more, any part of them
      at a time, and then it blocks, or fails if it is broken.
    */
    method WriteOut(room: nat, broken: bool) returns (r: Flush, left: nat)
      requires Valid()
      modifies this`len, this`wire, buffer
      ensures r != WriteFailed ==> Valid()
      ensures r == Finished ==> len == 0
      ensures |wire| + left == |old(wire)| + room
      ensures r != Finished ==> left == 0 && r == if broken then WriteFailed else Blocked
      ensures r != ReadFailed && Queued() == old(Queued()) && old(wire) <= wire <= Queued()
    {
      left := room;
      var start: nat := 0;
      ghost var queued := Queued();
      hide Queued, Progress;
      assert buffer[0..len] == buffer[..len];
      while start < len
        invariant start <= len == old(len) && old(wire) <= wire
        invariant wire + buffer[start..len] == queued && |wire| + left == |old(wire)| + room
      {
        if left == 0 && broken {
          return WriteFailed, left;
        }
        if left == 0 {
          MoveFront(start);
          return Blocked, left;
        }
        var written :| 1 <= written <= len - start && written <= left;
        left := left - written;
        PartsOf(wire, buffer[start..len], written);
        wire := wire + buffer[start..start + written];
        start := start + written;
      }
      assert buffer[start..len] == [] == buffer[..0];
      len := 0;
      r := Finished;
    }

    /** The end of the document: queues the last chunk, unless there is nothing more to send. */
    method ReadEnd() returns (finished: bool)
      requires Valid() && len == 0 && next == |headers| && document == Some("")
      modifies this`len, this`chunkData, buffer
      ensures Valid()
      ensures finished ==> Sent() && wire == Queued()
      ensures !finished ==> old(chunkData) && !chunkData
    {
      hide Message, LAST_CHUNK;
      assert wire + buffer[..0] == wire;
      if !chunkData {
        SentFromQueued();
        return true;
      }
      MessageGrows(lead, headers, Chunks(pieces), LAST_CHUNK);
      Store(0, "0\r\n\r\n");
      len, chunkData := 5, false;
      assert LAST_CHUNK == "0\r\n\r\n" by { LastChunkText(); }
      assert buffer[..len] == LAST_CHUNK;
      finished := false;
    }

    /** One successful read of the document into the buffer, which is empty. */
    method ReadPiece()
      requires Valid() && len == 0 && next == |headers| && document.Some? && document.value != ""
      modifies this`len, this`pieces, this`document, buffer
      ensures Valid() && document.Some? && |document.value| < |old(document).value|
    {
      hide Message, Chunk, Chunks, BodyOf, Concat;
      assert wire + buffer[..0] == wire;
      var left := document.value;
      var data := ReadInto();
      ghost var more := Framed(chunked, data);
      BodyGrows(chunked, pieces, data);
      MessageGrows(lead, headers, BodyOf(chunked, chunkData, pieces), more);
      ChunksAppend(pieces, data);
      assert left == data + left[|data|..];
      assert Concat(pieces) + left == (Concat(pieces) + data) + left[|data|..];
      document, pieces := Some(left[|data|..]), pieces + [data];
    }

    /** Reads a piece and frames it when chunking is on. */
    method ReadInto() returns (data: string)
      requires buffer.Length == BUFFER_SIZE && document.Some? && document.value != ""
      modifies this`len, buffer
      ensures 0 < |data| <= BUFFER_SIZE && data <= document.value
      ensures len <= BUFFER_SIZE && buffer[..len] == Framed(chunkData, data)
    {
      hide Chunk;
      var offset, reserve := 0, 0;
      if chunkData {
        offset, reserve := 10, 12;
      }
      var n :| 1 <= n <= |document.value| && n <= BUFFER_SIZE - reserve;
      data := document.value[..n];
      Store(offset, data);
      if chunkData {
        StoreChunk(data);
      }
      len := n + reserve;
    }

    /** Puts the length in front of the data that is already in place, and CR LF behind it. */
    method StoreChunk(data: string)
      requires buffer.Length == BUFFER_SIZE && |data| + 12 <= BUFFER_SIZE
      requires buffer[10..10 + |data|] == data
      modifies buffer
      ensures buffer[..|data| + 12] == Chunk(data)
    {
      hide HexPad;
      var n := |data|;
      var digits := HexPad(n, 8);
      Store(0, digits);
      assert buffer[8..] == old(buffer[8..]);
      Store(8, "\r\n");
      assert buffer[..8] == digits;
      assert buffer[10..] == old(buffer[10..]);
      assert buffer[10..10 + n] == buffer[10..][..n] == old(buffer[10..])[..n];
      ghost var front := buffer[..10];
      assert front == digits + "\r\n";
      Store(10 + n, "\r\n");
      ghost var all := buffer[..10 + n];
      assert all[..10] == front && all[10..] == data;
      assert buffer[..n + 12] == all + buffer[10 + n..n + 12];
    }

    lemma SentFromQueued()
      requires Valid() && len == 0 && next == |headers|
      requires document.None? || (document.value == "" && !chunkData)
      ensures Sent() && wire == Queued()
    {
      hide Message;
      assert wire + buffer[..0] == wire;
      if document.None? {
        assert BodyOf(chunked, chunkData, pieces) == "";
      } else {
        assert Concat(pieces) + "" == Concat(pieces);
      }
    }

    /** Fills the empty buffer: more headers, or a piece of the document, or the last chunk. */
    method Refill(unreadable: bool) returns (more: bool, failed: bool)
      requires Valid() && len == 0
      modifies this`len, this`next, this`pieces, this`document, this`chunkData, buffer
      ensures Valid()
      ensures !more && !failed ==> Sent() && wire == Queued()
      ensures failed <==> unreadable && old(next) == |headers| && old(document).Some?
      ensures failed ==> !more && next == |headers| && document.Some?
      ensures more ==>
                || next > old(next)
                || (next == old(next) && old(document).Some? && document.Some? &&
                    |document.value| < |old(document).value|)
                || (next == old(next) && document == old(document) && old(chunkData) && !chunkData)
    {
      hide HeaderBytes, Message, BodyOf;
      more, failed := true, false;
      if next != |headers| {
        MoreHeaders();
      } else if document.None? {
        SentFromQueued();
        more := false;
      } else {
        if unreadable {
          return false, true;
        }
        if document.value != "" {
          ReadPiece();
        } else {
          var finished := ReadEnd();
          more := !finished;
        }
      }
    }

    /**
      flush_data: called on every write event until the message is finished.
      At any time what is on the wire is a prefix of what was queued; when it
      finishes, the wire holds the whole message and nothing else.  It stops
      before that only when the stream has no room left or the document cannot be
      read.
    */
    method FlushData(room: nat, broken: bool, unreadable: bool) returns (r: Flush)
      requires Valid() && sending
      modifies this, buffer
      ensures r == Blocked ==> Valid() && sending
      ensures r != Blocked ==> !sending
      ensures r == Finished ==> Sent()
      ensures Progress() && old(wire) <= wire <= Queued()
      ensures |wire| <= |old(wire)| + room
      ensures r == Blocked ==> !broken && |wire| == |old(wire)| + room
      ensures r == WriteFailed ==> broken && |wire| == |old(wire)| + room
      ensures r == ReadFailed ==> unreadable && next == |headers| && document.Some?
    {
      hide Queued, Sent;
      var left := room;
      while true
        invariant Valid() && sending && old(wire) <= wire && |wire| + left == |old(wire)| + room
        decreases |headers| - next,
                  if document.Some? then |document.value| else 0, chunkData
      {
        var more;
        r, more, left := Turn(left, broken, unreadable);
        if r == Blocked {
          return;
        }
        if !more {
          break;
        }
      }
      sending := false;
    }

    /** One turn of the loop: the buffer is written out and filled again. */
    method Turn(room: nat, broken: bool, unreadable: bool) returns (r: Flush, more: bool, left: nat)
      requires Valid()
      modifies this`len, this`wire, this`next, this`pieces, this`document, this`chunkData, buffer
      ensures Progress() && old(wire) <= wire <= Queued() && |wire| + left == |old(wire)| + room
      ensures r == Blocked ==> left == 0 && !broken
      ensures r == WriteFailed ==> left == 0 && broken
      ensures r == ReadFailed ==> unreadable && next == |headers| && document.Some?
      ensures r == Blocked || more ==> Valid()
      ensures more ==> r == Finished
      ensures r == Finished && !more ==> Sent()
      ensures more ==>
                || next > old(next)
                || (next == old(next) && old(document).Some? && document.Some? &&
                    |document.value| < |old(document).value|)
                || (next == old(next) && document == old(document) && old(chunkData) && !chunkData)
    {
      hide Queued, Sent;
      r, left := WriteOut(room, broken);
      if r != Finished {
        return r, false, left;
      }
      var failed;
      more, failed := Refill(unreadable);
      WireIsPrefix();
      if failed {
        r, more := ReadFailed, false;
      }
    }

    lemma WireIsPrefix()
      requires Valid()
      ensures wire <= Queued()
    {
      hide Queued;
      assert wire <= wire + buffer[..len];
    }

    /**
      End to end: however a message was read and written, any fragmentation of it
      parses to the leader, the headers and the document that were sent.  The
      body ends by its chunks, by its length or with the stream.
    */
    lemma SentReadsBack(cb: Callbacks, line: string, fragments: seq<string>)
      requires Sent() && original.Some? && lead == line + "\r\n" && Acceptable(cb, line, headers)
      requires TakesAll(cb, "", original.value)
      requires chunked == SendsChunked(headers)
      requires SendsChunked(headers) == ReadsChunked(headers)
      requires !chunked ==> Declared(cb, headers) == |original.value| || Declared(cb, headers) == SIZE_UNKNOWN
      requires Concat(fragments) == wire
      ensures var (q, rest) := Feed(cb, START, "", fragments);
        && q.log.leaders == [line] && q.log.headers == Fitting(headers) && q.log.body == original.value && rest == ""
        && q.log.completions == [Reported(headers)]
        && (if !chunked && Declared(cb, headers) == SIZE_UNKNOWN then q.done.None? && End(q) == HeNone
            else q.done == Some(HeNone))
    {
      AnnouncesIff(cb, line, headers, original.value);
      hide Feed, Run, Opened, Fitting, Acceptable, Announces, Declared, Chunks, ChunkedBody, Concat, Message;
      hide ReadsChunked, SendsChunked, TakesAll, Reported;
      var body := if chunked then ChunkedBody(pieces) else original.value;
      FragmentationIndependent(cb, fragments, [wire]) by { assert Concat([wire]) == wire by { OnePiece(wire); } }
      OpeningReadsBack(cb, line, headers, body);
      BodyReadsBack(cb, Opened(cb, line, headers), chunked, original.value, pieces);
    }

    /**
      A document sent with its length in decimal digits, in no coding, is
      received whole, and the message ends with its last byte.
    */
    lemma PlainReadsBack(cb: Callbacks, line: string, i: nat, fragments: seq<string>)
      requires Sent() && original.Some? && lead == line + "\r\n" && Acceptable(cb, line, headers)
      requires TakesAll(cb, "", original.value) && |original.value| < SIZE_UNKNOWN
      requires chunked == SendsChunked(headers) && forall j :: 0 <= j < |headers| ==> !IsEncoding(headers[j])
      requires i < |headers| && headers[i] == ("Content-Length", Decimal(|original.value|))
      requires forall j :: 0 <= j < |headers| && IsLength(headers[j]) ==> j == i
      requires forall n :: cb.onHeaderComplete(false, n).1 == n
      requires Concat(fragments) == wire
      ensures wire == Message(lead, headers, original.value)
      ensures var (q, rest) := Feed(cb, START, "", fragments);
        && q.log == Log([line], Fitting(headers), [(false, |original.value|)], original.value)
        && q.done == Some(HeNone) && rest == ""
    {
      PlainDeclared(cb, headers, i, |original.value|);
      hide Acceptable, TakesAll, IsEncoding, IsLength, SendsChunked, ReadsChunked, Declared, Feed, Fitting, Decimal;
      hide Reported;
      hide Message, ChunkedBody;
      SentReadsBack(cb, line, fragments);
    }
  }

  lemma PlainDeclared(cb: Callbacks, headers: seq<(string, string)>, i: nat, n: size)
    requires forall j :: 0 <= j < |headers| ==> !IsEncoding(headers[j])
    requires i < |headers| && headers[i] == ("Content-Length", Decimal(n))
    requires forall j :: 0 <= j < |headers| && IsLength(headers[j]) ==> j == i
    requires forall n :: cb.onHeaderComplete(false, n).1 == n
    ensures !SendsChunked(headers) && !ReadsChunked(headers) && Declared(cb, headers) == n
    ensures Reported(headers) == (false, n)
  {
    LeadsAlike(START, START.(state := Headers, log := START.log.(leaders := [""])), headers);
    var p := START.(state := Headers, log := START.log.(leaders := [""]));
    NoEncoding(headers);
    NotesChunked(p, headers);
    NotesLength(p, headers, i, n);
    hide NotingAll, ReadsChunked, Encoding, IsEncoding, IsLength, Decimal;
  }

  lemma PartsOf(wire: string, waiting: string, n: nat)
    requires n <= |waiting|
    ensures (wire + waiting[..n]) + waiting[n..] == wire + waiting
  {
  }

  lemma OnePiece(s: string)
    ensures Concat([s]) == s
  {
    assert Concat([s]) == s + Concat<char>([]);
  }

  /** The headers say how the body is framed: in chunks, by its length, or not at all. */
  predicate Announces(p: Parse, chunked: bool, document: string) {
    p.chunked == chunked && (chunked || p.dataSize == |document| || p.dataSize == SIZE_UNKNOWN)
  }

  /** The length of the body, as the headers and the callback leave it. */
  function Declared(cb: Callbacks, headers: seq<(string, string)>): size { Opened(cb, "", headers).dataSize }

  lemma {:induction false} LeadsAlike(p: Parse, q: Parse, headers: seq<(string, string)>)
    requires p.chunked == q.chunked && p.dataSize == q.dataSize
    ensures NotingAll(p, headers).chunked == NotingAll(q, headers).chunked
    ensures NotingAll(p, headers).dataSize == NotingAll(q, headers).dataSize
  {
    hide SameNoCase, ScanDecimal, Fits;
    if headers != [] { LeadsAlike(p, q, headers[..|headers| - 1]); }
  }

  /** The framing is announced exactly if both agree on chunking and, without it, the length is right or unknown. */
  lemma AnnouncesIff(cb: Callbacks, line: string, headers: seq<(string, string)>, document: string)
    ensures Announces(Opened(cb, line, headers), SendsChunked(headers), document) <==>
            && SendsChunked(headers) == ReadsChunked(headers)
            && (!SendsChunked(headers) ==>
                  Declared(cb, headers) == |document| || Declared(cb, headers) == SIZE_UNKNOWN)
    ensures Opened(cb, line, headers).chunked == ReadsChunked(headers)
    ensures Opened(cb, line, headers).dataSize == Declared(cb, headers)
  {
    var p := START.(state := Headers, log := START.log.(leaders := [line]));
    var q := START.(state := Headers, log := START.log.(leaders := [""]));
    NotesChunked(p, headers);
    LeadsAlike(p, q, headers);
    hide NotingAll, ReadsChunked, SendsChunked;
  }

  predicate IsLength(h: (string, string)) { SameNoCase(h.0, "Content-Length") }

  function Power10(k: nat): nat { if k == 0 then 1 else 10 * Power10(k - 1) }

  lemma {:induction false} DecimalLength(n: nat, k: nat)
    requires 0 < k && n < Power10(k)
    ensures |Decimal(n)| <= k
  {
    if n >= 10 {
      DecimalLength(n / 10, k - 1);
    }
  }

  /** The header that gives a length is written, whatever the length. */
  lemma LengthFits(n: size)
    ensures Fits(("Content-Length", Decimal(n)))
  {
    assert Power10(10) == 10_000_000_000 by {
      assert Power10(5) == 100_000;
      assert Power10(10) == 10 * (10 * (10 * (10 * (10 * Power10(5)))));
    }
    DecimalLength(n, 10);
    hide Decimal, Power10;
  }

  /** The only length that is given is the one that is noted. */
  lemma {:induction false} NotesLength(p: Parse, headers: seq<(string, string)>, i: nat, n: size)
    requires i < |headers| && headers[i] == ("Content-Length", Decimal(n))
    requires forall j :: 0 <= j < |headers| && IsLength(headers[j]) ==> j == i
    ensures NotingAll(p, headers).dataSize == n
  {
    var last := |headers| - 1;
    var front, h := headers[..last], headers[last];
    forall j | 0 <= j < last && IsLength(front[j]) ensures j == i { assert front[j] == headers[j]; }
    if i == last {
      LengthFits(n);
      assert SameNoCase(h.0, "Content-Length");
      ScanDecimalOf(n, "");
      assert Decimal(n) + "" == Decimal(n);
    } else {
      NotesLength(p, front, i, n);
      assert !IsLength(h);
    }
    hide ScanDecimal, Decimal, Fits;
  }

  predicate UntilClose(p: Parse) { !p.chunked && p.dataSize == SIZE_UNKNOWN }

  lemma BodyReadsBack(cb: Callbacks, p: Parse, chunked: bool, document: string, pieces: seq<string>)
    requires p.done.None? && p.log.body == "" && p.state == if p.chunked then ChunkSize else Data
    requires Announces(p, chunked, document)
    requires chunked ==> Pieces(pieces) && Concat(pieces) == document
    requires TakesAll(cb, "", document)
    ensures var (q, rest) := Run(cb, p, if chunked then ChunkedBody(pieces) else document);
      && q.log == p.log.(body := document) && rest == ""
      && (if UntilClose(p) then q.done.None? && End(q) == HeNone else q.done == Some(HeNone))
  {
    assert "" + document == document;
    hide Run, TakesAll;
    if chunked {
      RunChunkedBody(cb, p, pieces);
    } else if p.dataSize == SIZE_UNKNOWN {
      BodyUntilClose(cb, p, document);
    } else {
      assert document[..|document|] == document;
      BodyByLength(cb, p, document);
    }
  }

  // ---------------------------------------------------------------------
  // Receiving
  // ---------------------------------------------------------------------

  datatype Receive = Waiting | Starved | Done(err: HttpError) | Overflow | Failed

  const MAX_READ_COUNT := 20

  class Receiver {
    const parser: Parser
    const buffer: array<char>
    var len: nat
    var receiving: bool         // mode_ == HM_RECV
    ghost var received: string  // all bytes the stream delivered

    /** Parser and buffer together are at the meaning of what was received. */
    ghost predicate Valid()
      reads this, parser, buffer
    {
      && buffer.Length == BUFFER_SIZE && len <= BUFFER_SIZE && parser.state != Complete
      && Run(parser.cb, START, received) == (parser.View(), buffer[..len])
    }

    constructor (cb: Callbacks)
      ensures Valid() && fresh(parser) && fresh(buffer)
      ensures receiving && received == "" && parser.cb == cb
    {
      parser := new Parser(cb);
      buffer := new char[BUFFER_SIZE];
      len, received, receiving := 0, "", true;
      new;
      assert buffer[..0] == "";
    }

    /** The stream was closed by the other side: end_of_input. */
    method OnCloseEvent() returns (err: HttpError)
      requires Valid() && receiving
      modifies this`receiving, parser
      ensures !receiving && parser.state == Complete
      ensures parser.results == old(parser.results) + [err] && err == End(Run(parser.cb, START, received).0)
    {
      parser.EndOfInput();
      err := parser.results[|parser.results| - 1];
      receiving := false;
    }

    /** One successful read of the stream, and the parse of all that is unconsumed. */
    method ReadOnce(data: string) returns (more: bool, err: HttpError)
      requires Valid() && len + |data| <= BUFFER_SIZE
      modifies this`len, this`received, parser, buffer
      ensures received == old(received) + data
      ensures parser.state != Complete && len <= BUFFER_SIZE && parser.results == old(parser.results)
      ensures more ==> Valid()
      ensures !more ==> Run(parser.cb, START, received) == (parser.View().(done := Some(err)), buffer[..len])
    {
      hide Run;
      ghost var pending := buffer[..len];
      RunSplit(parser.cb, START, received, data);
      forall i | 0 <= i < |data| {
        buffer[len + i] := data[i];
      }
      len := len + |data|;
      assert buffer[..len] == pending + data;
      received := received + data;
      var read;
      more, read, err := parser.Process(buffer[..len]);
      ghost var rest := buffer[read..len];
      assert buffer[..len][read..] == rest;
      len := len - read;
      forall i | 0 <= i < len {
        buffer[i] := buffer[read + i];
      }
      assert buffer[..len] == rest;
    }

    /**
      The SE_READ part of OnEvent while the stream holds the bytes `incoming`;
      every read may return any non-empty part that fits.  Behind them the stream
      blocks, or fails if it is broken.
    */
    method OnReadEvent(incoming: string, broken: bool) returns (taken: nat, outcome: Receive)
      requires Valid() && receiving
      modifies this, parser, buffer
      ensures taken <= |incoming| && received == old(received) + incoming[..taken]
      ensures outcome.Waiting? ==> Valid() && receiving && taken == |incoming| && !broken
      ensures outcome.Failed? ==> Valid() && !receiving && taken == |incoming| && broken
      ensures outcome.Starved? ==> Valid() && receiving && taken > MAX_READ_COUNT
      ensures outcome.Overflow? ==> Valid() && !receiving
      ensures outcome.Overflow? ==> len == BUFFER_SIZE && Find(buffer[..len], '\n') == BUFFER_SIZE
      ensures outcome.Done? ==> !receiving && len <= buffer.Length
      ensures outcome.Done? ==>
        Run(parser.cb, START, received) ==
          (parser.View().(state := Run(parser.cb, START, received).0.state, done := Some(outcome.err)), buffer[..len])
      ensures parser.results == old(parser.results) + if outcome.Done? then [outcome.err] else []
      ensures outcome.Done? <==> parser.state == Complete
    {
      hide Run;
      taken := 0;
      assert received == old(received) + incoming[..0];
      var loopCount := 0;
      while true
        invariant Valid() && receiving && taken <= |incoming|
        invariant received == old(received) + incoming[..taken] && parser.results == old(parser.results)
        invariant 0 <= loopCount <= taken
        decreases |incoming| - taken
      {
        if len >= BUFFER_SIZE {
          RunLeftOver(parser.cb, START, received);
          receiving := false;
          return taken, Overflow;
        }
        if taken == |incoming| && broken {
          receiving := false;
          return taken, Failed;
        }
        if taken == |incoming| {
          return taken, Waiting;
        }
        var n :| 1 <= n <= |incoming| - taken && n <= BUFFER_SIZE - len;
        var more, err := ReadOnce(incoming[taken..taken + n]);
        assert incoming[..taken + n] == incoming[..taken] + incoming[taken..taken + n];
        taken := taken + n;
        if !more {
          parser.CompleteWith(err);
          receiving := false;
          return taken, Done(err);
        }
        loopCount := loopCount + 1;
        if loopCount > MAX_READ_COUNT {
          return taken, Starved;
        }
      }
    }
  }
}
