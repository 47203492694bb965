/**
  The incremental parser of talk/base/httpbase.cc.

  `Run` is the reference meaning of a byte stream: it reads lines whole and body
  data one byte at a time.  `Parser.Process` is the loop of the source, in which
  the data sink may take any part of what is offered; it is proved to compute
  `Run`.  `RunSplit` and `FeedIsRun` say that fragmentation does not matter.

  Sizes are 32 bits wide and SIZE_UNKNOWN is the largest of them.
*/
module HttpParser {
  import opened Prelude

  const SIZE_LIMIT: nat := 0x1_0000_0000
  const SIZE_UNKNOWN: size := 0xffff_ffff

  type size = n: nat | n < 0x1_0000_0000

  datatype HttpError = HeNone | HeProtocol | HeDisconnected | HeOther(code: int)

  datatype State = Leader | Headers | ChunkSize | ChunkTerm | Trailers | Data | Complete

  predicate ReadsLines(s: State) { s != Data && s != Complete }

  /**
    The virtual functions the parser calls; each is a function of its arguments.
    onData is what the sink says to more data, given the body it has taken.
  */
  datatype Callbacks = Callbacks(
    onLeader: string -> HttpError,
    onHeader: (string, string) -> HttpError,
    onHeaderComplete: (bool, size) -> (HttpError, size),
    onData: string -> HttpError)

  /** What the parser has reported so far. */
  datatype Log = Log(leaders: seq<string>, headers: seq<(string, string)>,
                     completions: seq<(bool, size)>, body: string)

  /** `done` is set once process() must return false, to the error it returns. */
  datatype Parse = Parse(state: State, chunked: bool, dataSize: size, log: Log,
                         done: Option<HttpError>)

  const START := Parse(Leader, false, SIZE_UNKNOWN, Log([], [], [], ""), None)

  // ---------------------------------------------------------------------
  // Numbers
  // ---------------------------------------------------------------------

  predicate IsDigit(c: char) { '0' <= c <= '9' }

  predicate IsHex(c: char) { IsDigit(c) || 'a' <= c <= 'f' || 'A' <= c <= 'F' }

  function HexValue(c: char): nat
    requires IsHex(c)
  {
    if IsDigit(c) then c as int - '0' as int
    else if 'a' <= c <= 'f' then c as int - 'a' as int + 10
    else c as int - 'A' as int + 10
  }

  function HexSpan(s: string): (n: nat)
    ensures n <= |s| && forall i :: 0 <= i < n ==> IsHex(s[i])
    ensures n < |s| ==> !IsHex(s[n])
  {
    if s != [] && IsHex(s[0]) then 1 + HexSpan(s[1..]) else 0
  }

  function HexNumber(s: string): nat
    requires forall i :: 0 <= i < |s| ==> IsHex(s[i])
  {
    if s == [] then 0 else 16 * HexNumber(s[..|s| - 1]) + HexValue(s[|s| - 1])
  }

  function SpaceSpan(s: string): (n: nat)
    ensures n <= |s| && forall i :: 0 <= i < n ==> IsSpace(s[i])
    ensures n < |s| ==> !IsSpace(s[n])
  {
    if s != [] && IsSpace(s[0]) then 1 + SpaceSpan(s[1..]) else 0
  }

  function SignSpan(s: string): (n: nat)
    ensures n <= |s|
  {
    if s != [] && (s[0] == '+' || s[0] == '-') then 1 else 0
  }

  function PrefixSpan(s: string): (n: nat)
    ensures n <= |s|
  {
    if |s| >= 3 && s[0] == '0' && (s[1] == 'x' || s[1] == 'X') && IsHex(s[2]) then 2 else 0
  }

  /** Unsigned negation. */
  function Negate(v: size): size { if v == 0 then 0 else SIZE_LIMIT - v }

  /** The value strtoul returns for a magnitude and a sign: it saturates. */
  function Saturate(v: nat, negative: bool): size {
    if v >= SIZE_LIMIT then SIZE_UNKNOWN else if negative then Negate(v) else v
  }

  /** strtoul(s, &end, 16): the value and how many characters were used. */
  function Strtoul16(s: string): (r: (size, nat))
    ensures r.1 <= |s|
  {
    var a := SpaceSpan(s);
    Signed16(s[a..], a)
  }

  function Signed16(s: string, used: nat): (r: (size, nat))
    ensures r.1 <= used + |s|
  {
    var b := SignSpan(s);
    Prefixed16(s[b..], b == 1 && s[0] == '-', used + b)
  }

  function Prefixed16(s: string, negative: bool, used: nat): (r: (size, nat))
    ensures r.1 <= used + |s|
  {
    var c := PrefixSpan(s);
    Digits16(s[c..], negative, used + c)
  }

  function Digits16(s: string, negative: bool, used: nat): (r: (size, nat))
    ensures r.1 <= used + |s|
  {
    var n := HexSpan(s);
    if n == 0 then (0, 0) else (Saturate(HexNumber(s[..n]), negative), used + n)
  }

  function DigitSpan(s: string): (n: nat)
    ensures n <= |s| && forall i :: 0 <= i < n ==> IsDigit(s[i])
  {
    if s != [] && IsDigit(s[0]) then 1 + DigitSpan(s[1..]) else 0
  }

  function DecNumber(s: string): nat
    requires forall i :: 0 <= i < |s| ==> IsDigit(s[i])
  {
    if s == [] then 0 else 10 * DecNumber(s[..|s| - 1]) + HexValue(s[|s| - 1])
  }

  /** sscanf(s, "%d") into an unsigned: None when there is no number. */
  function ScanDecimal(s: string): Option<size> {
    var b := SignSpan(s);
    var n := DigitSpan(s[b..]);
    if n == 0 then None
    else
      var v := DecNumber(s[b..][..n]) % SIZE_LIMIT;
      Some(if b == 1 && s[0] == '-' then Negate(v) else v)
  }

  // ---------------------------------------------------------------------
  // What numbers texts are
  // ---------------------------------------------------------------------

  /** The digits have the values of their places, in either case. */
  lemma HexAlphabet(d: nat)
    requires d < 16
    ensures var c, e := "0123456789abcdef"[d], "0123456789ABCDEF"[d];
            IsHex(c) && HexValue(c) == d && IsHex(e) && HexValue(e) == d
  {
  }

  /** The decimal digits of n. */
  function Decimal(n: nat): (s: string)
    ensures s != "" && forall i :: 0 <= i < |s| ==> IsDigit(s[i])
  {
    if n < 10 then ["0123456789"[n]] else Decimal(n / 10) + ["0123456789"[n % 10]]
  }

  lemma {:induction false} DecimalValue(n: nat)
    ensures DecNumber(Decimal(n)) == n
  {
    if n >= 10 {
      DecimalValue(n / 10);
      assert Decimal(n)[..|Decimal(n)| - 1] == Decimal(n / 10);
    } else {
      assert Decimal(n)[..0] == "";
    }
  }

  lemma {:induction false} DigitSpanOf(s: string, rest: string)
    requires forall i :: 0 <= i < |s| ==> IsDigit(s[i])
    requires rest == "" || !IsDigit(rest[0])
    ensures DigitSpan(s + rest) == |s|
  {
    if s == "" {
      assert s + rest == rest;
    } else {
      DigitSpanOf(s[1..], rest);
      assert (s + rest)[1..] == s[1..] + rest;
    }
  }

  /** sscanf reads the decimal digits of a number as that number, whatever follows, and negates it behind a minus. */
  lemma ScanDecimalOf(n: nat, rest: string)
    requires n < SIZE_LIMIT && (rest == "" || !IsDigit(rest[0]))
    ensures ScanDecimal(Decimal(n) + rest) == Some(n) == ScanDecimal("+" + (Decimal(n) + rest))
    ensures ScanDecimal("-" + (Decimal(n) + rest)) == Some((SIZE_LIMIT - n) % SIZE_LIMIT)
  {
    DecimalValue(n);
    hide Decimal, DecNumber, DigitSpan, ScanDecimal;
    ScanSigned("", Decimal(n), rest);
    ScanSigned("+", Decimal(n), rest);
    ScanSigned("-", Decimal(n), rest);
    assert "" + (Decimal(n) + rest) == Decimal(n) + rest;
  }

  lemma ScanSigned(sign: string, digits: string, rest: string)
    requires sign == "" || sign == "+" || sign == "-"
    requires digits != "" && forall i :: 0 <= i < |digits| ==> IsDigit(digits[i])
    requires DecNumber(digits) < SIZE_LIMIT && (rest == "" || !IsDigit(rest[0]))
    ensures ScanDecimal(sign + (digits + rest)) ==
            Some(if sign == "-" then (SIZE_LIMIT - DecNumber(digits)) % SIZE_LIMIT else DecNumber(digits))
  {
    var tail := digits + rest;
    var text := sign + tail;
    DigitSpanOf(digits, rest);
    hide DigitSpan, DecNumber, ScanDecimal;
    assert text[|sign|..] == tail && tail[..|digits|] == digits && tail[0] == digits[0];
    assert sign == "" ==> text == tail;
    ScanParts(sign, text, tail, digits);
  }

  lemma ScanParts(sign: string, text: string, tail: string, digits: string)
    requires text != "" && |sign| <= |text| && text[|sign|..] == tail && |digits| <= |tail|
    requires SignSpan(text) == |sign| && (|sign| == 1 ==> sign[0] == text[0])
    requires tail[..|digits|] == digits && DigitSpan(tail) == |digits| > 0
    requires forall i :: 0 <= i < |digits| ==> IsDigit(digits[i])
    requires DecNumber(digits) < SIZE_LIMIT
    ensures ScanDecimal(text) ==
            Some(if sign == "-" then (SIZE_LIMIT - DecNumber(digits)) % SIZE_LIMIT else DecNumber(digits))
  {
    hide DigitSpan, DecNumber, SignSpan;
    assert sign == "-" <==> |sign| == 1 && text[0] == '-';
  }

  /** There is no number exactly if no digit stands at the beginning or behind a sign there. */
  lemma ScanNothing(s: string)
    ensures ScanDecimal(s) == None <==>
            s == "" || (if s[0] == '+' || s[0] == '-' then |s| == 1 || !IsDigit(s[1]) else !IsDigit(s[0]))
  {
  }

  // ---------------------------------------------------------------------
  // Lines
  // ---------------------------------------------------------------------

  /** The position of the first c in s, or |s|. */
  function Find(s: string, c: char): (n: nat)
    ensures n <= |s| && (n < |s| ==> s[n] == c)
    ensures forall i :: 0 <= i < n ==> s[i] != c
  {
    if s == [] || s[0] == c then 0 else 1 + Find(s[1..], c)
  }

  function TrimRight(s: string): (t: string)
    ensures t <= s && (t != [] ==> !IsSpace(t[|t| - 1]))
    ensures forall i :: |t| <= i < |s| ==> IsSpace(s[i])
  {
    if s != [] && IsSpace(s[|s| - 1]) then TrimRight(s[..|s| - 1]) else s
  }

  function Stop(p: Parse, err: HttpError): Parse {
    p.(done := if err == HeNone then None else Some(err))
  }

  function HeaderLine(cb: Callbacks, p: Parse, line: string): Parse {
    var colon := Find(line, ':');
    if colon == |line| then Stop(p, HeProtocol)
    else
      var start := colon + 1 + SpaceSpan(line[colon + 1..]);
      Field(cb, p, line[..colon], line[start..])
  }

  function Field(cb: Callbacks, p: Parse, name: string, value: string): Parse {
    var q := p.(log := p.log.(headers := p.log.headers + [(name, value)]));
    if SameNoCase(name, "Content-Length") then
      match ScanDecimal(value)
      case None => Stop(p, HeProtocol)
      case Some(n) => Stop(q.(dataSize := n), cb.onHeader(name, value))
    else if SameNoCase(name, "Transfer-Encoding") then
      if SameNoCase(value, "chunked") then Stop(q.(chunked := true), cb.onHeader(name, value))
      else if SameNoCase(value, "identity") then Stop(q.(chunked := false), cb.onHeader(name, value))
      else Stop(p, HeProtocol)
    else Stop(q, cb.onHeader(name, value))
  }

  /** process_line: `line` has no trailing white space. */
  function Line(cb: Callbacks, p: Parse, line: string): Parse
    requires p.done.None?
  {
    match p.state
    case Leader =>
      Stop(p.(state := Headers, log := p.log.(leaders := p.log.leaders + [line])), cb.onLeader(line))
    case Headers =>
      if line != [] then HeaderLine(cb, p, line)
      else
        var (err, n) := cb.onHeaderComplete(p.chunked, p.dataSize);
        Stop(p.(state := if p.chunked then ChunkSize else Data, dataSize := n,
                log := p.log.(completions := p.log.completions + [(p.chunked, p.dataSize)])), err)
    case ChunkSize =>
      if line == [] then Stop(p, HeProtocol)
      else
        var (n, used) := Strtoul16(line);
        var q := p.(dataSize := n);
        if used != |line| then Stop(q, HeProtocol)
        else q.(state := if n == 0 then Trailers else Data)
    case ChunkTerm =>
      if line != [] then Stop(p, HeProtocol)
      else p.(state := if p.chunked then ChunkSize else Data)
    case Trailers => if line == [] then p.(done := Some(HeNone)) else p
    case Data => p
    case Complete => p
  }

  // ---------------------------------------------------------------------
  // The meaning of a byte stream
  // ---------------------------------------------------------------------

  /** The state after n body bytes. */
  function Took(p: Parse, data: string): Parse
    requires p.dataSize == SIZE_UNKNOWN || |data| <= p.dataSize
  {
    p.(log := p.log.(body := p.log.body + data),
       dataSize := if p.dataSize == SIZE_UNKNOWN then SIZE_UNKNOWN else p.dataSize - |data|)
  }

  /** Parses as far as possible; returns the bytes that were not consumed. */
  function Run(cb: Callbacks, p: Parse, input: string): (r: (Parse, string))
    decreases |input|, p.state == Data
  {
    if p.done.Some? || p.state == Complete then (p, input)
    else if ReadsLines(p.state) then
      var pos := Find(input, '\n');
      if pos == |input| then (p, input)
      else Run(cb, Line(cb, p, TrimRight(input[..pos])), input[pos + 1..])
    else if p.dataSize == 0 then
      if p.chunked then Run(cb, p.(state := ChunkTerm), input)
      else (p.(done := Some(HeNone)), input)
    else if input == [] then (p, input)
    else if cb.onData(p.log.body) != HeNone then (p.(done := Some(cb.onData(p.log.body))), input)
    else Run(cb, Took(p, input[..1]), input[1..])
  }

  /** Delivers fragments one by one, re-presenting what was not consumed. */
  function Feed(cb: Callbacks, p: Parse, pending: string, fragments: seq<string>): (r: (Parse, string))
    decreases |fragments|
  {
    if fragments == [] then (p, pending)
    else
      var (q, rest) := Run(cb, p, pending + fragments[0]);
      Feed(cb, q, rest, fragments[1..])
  }

  lemma RunNothing(cb: Callbacks, p: Parse)
    requires ReadsLines(p.state)
    ensures Run(cb, p, "") == (p, "")
  {
  }

  lemma FindSplit(x: string, y: string, c: char)
    requires Find(x, c) < |x|
    ensures Find(x + y, c) == Find(x, c)
  {
    var n := Find(x, c);
    assert (x + y)[n] == c;
    assert forall i :: 0 <= i < n ==> (x + y)[i] == x[i];
  }

  /** Running on x and then on what is left with y behind it is running on both at once. */
  lemma {:induction false} RunSplit(cb: Callbacks, p: Parse, x: string, y: string)
    ensures var (q, rest) := Run(cb, p, x); Run(cb, p, x + y) == Run(cb, q, rest + y)
    decreases |x|, p.state == Data
  {
    hide Line;
    if p.done.Some? || p.state == Complete {
    } else if ReadsLines(p.state) {
      var pos := Find(x, '\n');
      if pos < |x| {
        FindSplit(x, y, '\n');
        assert (x + y)[..pos] == x[..pos];
        assert (x + y)[pos + 1..] == x[pos + 1..] + y;
        RunSplit(cb, Line(cb, p, TrimRight(x[..pos])), x[pos + 1..], y);
      }
    } else if p.dataSize == 0 {
      if p.chunked { RunSplit(cb, p.(state := ChunkTerm), x, y); }
    } else if x != [] && cb.onData(p.log.body) == HeNone {
      assert (x + y)[..1] == x[..1];
      assert (x + y)[1..] == x[1..] + y;
      RunSplit(cb, Took(p, x[..1]), x[1..], y);
    }
  }

  /**
    Any fragmentation gives the same leader, headers, body, result and the same
    unconsumed bytes as the whole stream at once.
  */
  lemma {:induction false} FeedIsRun(cb: Callbacks, p: Parse, pending: string, fragments: seq<string>)
    requires Run(cb, p, pending) == (p, pending)
    ensures Feed(cb, p, pending, fragments) == Run(cb, p, pending + Concat(fragments))
    decreases |fragments|
  {
    hide Run;
    if fragments == [] {
      assert pending + Concat(fragments) == pending;
    } else {
      var x, tail := pending + fragments[0], Concat(fragments[1..]);
      var (q, rest) := Run(cb, p, x);
      RunSplit(cb, p, x, tail);
      assert pending + Concat(fragments) == x + tail;
      RunIdle(cb, p, x);
      FeedIsRun(cb, q, rest, fragments[1..]);
    }
  }

  /** What Run leaves unconsumed cannot be consumed. */
  lemma {:induction false} RunIdle(cb: Callbacks, p: Parse, x: string)
    ensures var (q, rest) := Run(cb, p, x); Run(cb, q, rest) == (q, rest)
    decreases |x|, p.state == Data
  {
    hide Line;
    if p.done.Some? || p.state == Complete {
    } else if ReadsLines(p.state) {
      var pos := Find(x, '\n');
      if pos < |x| { RunIdle(cb, Line(cb, p, TrimRight(x[..pos])), x[pos + 1..]); }
    } else if p.dataSize == 0 {
      if p.chunked { RunIdle(cb, p.(state := ChunkTerm), x); }
    } else if x != [] && cb.onData(p.log.body) == HeNone {
      RunIdle(cb, Took(p, x[..1]), x[1..]);
    }
  }

  /** Bytes are left over only behind the end, or as a line without its line feed. */
  lemma {:induction false} RunLeftOver(cb: Callbacks, p: Parse, x: string)
    ensures var (q, rest) := Run(cb, p, x);
            q.done.None? && q.state != Complete && rest != "" ==>
              ReadsLines(q.state) && Find(rest, '\n') == |rest|
    decreases |x|, p.state == Data
  {
    hide Line;
    if p.done.Some? || p.state == Complete {
    } else if ReadsLines(p.state) {
      var pos := Find(x, '\n');
      if pos < |x| { RunLeftOver(cb, Line(cb, p, TrimRight(x[..pos])), x[pos + 1..]); }
    } else if p.dataSize == 0 {
      if p.chunked { RunLeftOver(cb, p.(state := ChunkTerm), x); }
    } else if x != [] && cb.onData(p.log.body) == HeNone {
      RunLeftOver(cb, Took(p, x[..1]), x[1..]);
    }
  }

  /** Two ways to cut the same bytes into fragments cannot be told apart. */
  lemma FragmentationIndependent(cb: Callbacks, one: seq<string>, two: seq<string>)
    requires Concat(one) == Concat(two)
    ensures Feed(cb, START, "", one) == Feed(cb, START, "", two)
    ensures Feed(cb, START, "", one) == Run(cb, START, Concat(one))
  {
    hide Run;
    RunNothing(cb, START);
    FeedIsRun(cb, START, "", one);
    FeedIsRun(cb, START, "", two);
    assert "" + Concat(one) == Concat(one);
  }

  /** The sink refuses none of the data. */
  predicate TakesAll(cb: Callbacks, body: string, data: string) {
    forall j :: 0 <= j < |data| ==> cb.onData(body + data[..j]) == HeNone
  }

  lemma TakesParts(cb: Callbacks, body: string, one: string, two: string)
    requires TakesAll(cb, body, one + two)
    ensures TakesAll(cb, body, one) && TakesAll(cb, body + one, two)
  {
    forall j | 0 <= j < |one| ensures cb.onData(body + one[..j]) == HeNone { assert (one + two)[..j] == one[..j]; }
    forall j | 0 <= j < |two| ensures cb.onData(body + one + two[..j]) == HeNone {
      assert (one + two)[..|one| + j] == one + two[..j];
      assert body + (one + two[..j]) == body + one + two[..j];
    }
  }

  /** n bytes at once are n bytes one by one. */
  lemma {:induction false} RunTakes(cb: Callbacks, p: Parse, input: string, n: nat)
    requires p.state == Data && p.done.None? && n <= |input|
    requires p.dataSize == SIZE_UNKNOWN || n <= p.dataSize
    requires TakesAll(cb, p.log.body, input[..n])
    ensures Run(cb, p, input) == Run(cb, Took(p, input[..n]), input[n..])
    decreases n
  {
    hide Line;
    if n == 0 {
      assert p.log.body + input[..0] == p.log.body;
      assert Took(p, input[..0]) == p;
    } else {
      var q := Took(p, input[..1]);
      assert input[..n] == input[..1] + input[1..][..n - 1];
      TakesParts(cb, p.log.body, input[..1], input[1..][..n - 1]);
      assert input[..n][..0] == "" && p.log.body + "" == p.log.body;
      RunTakes(cb, q, input[1..], n - 1);
      assert p.log.body + input[..n] == (p.log.body + input[..1]) + input[1..][..n - 1];
      assert Took(q, input[1..][..n - 1]) == Took(p, input[..n]);
    }
  }

  // ---------------------------------------------------------------------
  // Lines that end the parse
  // ---------------------------------------------------------------------

  predicate NoLineFeed(s: string) { forall i :: 0 <= i < |s| ==> s[i] != '\n' }

  lemma TrimCr(s: string)
    requires s == "" || !IsSpace(s[|s| - 1])
    ensures TrimRight(s + "\r") == s
  {
  }

  /** Run over one line that ends in CR LF. */
  lemma RunOneLine(cb: Callbacks, p: Parse, s: string, more: string)
    requires p.done.None? && ReadsLines(p.state)
    requires s == "" || !IsSpace(s[|s| - 1])
    requires forall i :: 0 <= i < |s| ==> s[i] != '\n'
    ensures Run(cb, p, s + "\r\n" + more) == Run(cb, Line(cb, p, s), more)
  {
    hide Line;
    var input := s + "\r\n" + more;
    assert forall i :: 0 <= i < |s| ==> input[i] == s[i];
    assert input[|s|] == '\r' && input[|s| + 1] == '\n';
    assert Find(input, '\n') == |s| + 1;
    assert input[..|s| + 1] == s + "\r";
    assert input[|s| + 2..] == more;
    TrimCr(s);
  }

  /** A line as the parser sees it. */
  predicate TrimmedLine(s: string) { NoLineFeed(s) && (s == "" || !IsSpace(s[|s| - 1])) }

  /** What follows a line that ends the parse is left. */
  lemma RunStops(cb: Callbacks, p: Parse, line: string, more: string)
    requires p.done.None? && ReadsLines(p.state) && TrimmedLine(line)
    requires Line(cb, p, line).done.Some?
    ensures Run(cb, p, line + "\r\n" + more) == (Line(cb, p, line), more)
  {
    RunOneLine(cb, p, line, more);
    hide Line;
  }

  /** A leader is reported; a refusal ends the parse with its error. */
  lemma LeaderRefused(cb: Callbacks, p: Parse, line: string, more: string)
    requires p.done.None? && p.state == Leader && TrimmedLine(line) && cb.onLeader(line) != HeNone
    ensures var (q, rest) := Run(cb, p, line + "\r\n" + more);
            q.done == Some(cb.onLeader(line)) && q.log == p.log.(leaders := p.log.leaders + [line]) && rest == more
  {
    RunStops(cb, p, line, more);
    hide Run;
  }

  /** Between chunks only an empty line may stand, and in place of a size none. */
  lemma FramingRefused(cb: Callbacks, p: Parse, line: string, more: string)
    requires p.done.None? && TrimmedLine(line)
    requires if line == "" then p.state == ChunkSize else p.state == ChunkTerm
    ensures Run(cb, p, line + "\r\n" + more) == (p.(done := Some(HeProtocol)), more)
  {
    RunStops(cb, p, line, more);
    hide Run;
  }

  /** Behind the last chunk all lines up to the first empty one are skipped. */
  lemma {:induction false} TrailersSkipped(cb: Callbacks, p: Parse, lines: seq<string>, more: string)
    requires p.done.None? && p.state == Trailers
    requires forall i :: 0 <= i < |lines| ==> TrimmedLine(lines[i]) && lines[i] != ""
    ensures Run(cb, p, Ended(lines) + "\r\n" + more) == (p.(done := Some(HeNone)), more)
    decreases |lines|
  {
    hide Run;
    if lines == [] {
      RunStops(cb, p, "", more);
      assert Ended(lines) + "\r\n" + more == "" + "\r\n" + more;
    } else {
      TrailersSkipped(cb, p, lines[1..], more);
      RunOneLine(cb, p, lines[0], Ended(lines[1..]) + "\r\n" + more);
      assert Ended(lines) + "\r\n" + more == lines[0] + "\r\n" + (Ended(lines[1..]) + "\r\n" + more);
    }
  }

  /** Lines with CR LF behind each. */
  function Ended(lines: seq<string>): string {
    if lines == [] then "" else lines[0] + "\r\n" + Ended(lines[1..])
  }

  /** A header line without a colon is refused. */
  lemma ColonMissing(cb: Callbacks, p: Parse, line: string, more: string)
    requires p.done.None? && p.state == Headers && TrimmedLine(line) && line != "" && ':' !in line
    ensures Run(cb, p, line + "\r\n" + more) == (p.(done := Some(HeProtocol)), more)
  {
    assert Find(line, ':') == |line|;
    RunStops(cb, p, line, more);
    hide Run;
  }

  /** A name, a colon, white space and a value are a header of that name and value. */
  lemma HeaderParts(cb: Callbacks, p: Parse, name: string, spaces: string, value: string)
    requires p.done.None? && p.state == Headers && ':' !in name
    requires (forall c :: c in spaces ==> IsSpace(c)) && (value == "" || !IsSpace(value[0]))
    ensures Line(cb, p, name + ":" + spaces + value) == Field(cb, p, name, value)
  {
    var line := name + ":" + spaces + value;
    assert line[|name|] == ':' && forall i :: 0 <= i < |name| ==> line[i] == name[i];
    assert Find(line, ':') == |name| && line[..|name|] == name;
    var rest := line[|name| + 1..];
    assert rest == spaces + value && forall i :: 0 <= i < |spaces| ==> rest[i] == spaces[i];
    assert value != "" ==> rest[|spaces|] == value[0];
    assert SpaceSpan(rest) == |spaces|;
    assert line[|name| + 1 + |spaces|..] == value;
    hide Field, Find, SpaceSpan;
  }

  /** A length must be a number and a coding one of two; nothing else is refused but by the callback. */
  lemma HeaderMeans(cb: Callbacks, p: Parse, name: string, spaces: string, value: string)
    requires p.done.None? && p.state == Headers && ':' !in name
    requires (forall c :: c in spaces ==> IsSpace(c)) && (value == "" || !IsSpace(value[0]))
    ensures var q := Line(cb, p, name + ":" + spaces + value);
      var length, coding := SameNoCase(name, "Content-Length"), SameNoCase(name, "Transfer-Encoding");
      if (length && ScanDecimal(value).None?) ||
         (coding && !SameNoCase(value, "chunked") && !SameNoCase(value, "identity"))
      then q == p.(done := Some(HeProtocol))
      else
        && q.log == p.log.(headers := p.log.headers + [(name, value)]) && q.state == Headers
        && q.done == (if cb.onHeader(name, value) == HeNone then None else Some(cb.onHeader(name, value)))
        && (if length then Some(q.dataSize) == ScanDecimal(value) else q.dataSize == p.dataSize)
        && q.chunked == if coding then SameNoCase(value, "chunked") else p.chunked
  {
    HeaderParts(cb, p, name, spaces, value);
    OneName(name);
    OneCoding(value);
    hide SameNoCase, ScanDecimal, Line;
  }

  lemma OneName(name: string)
    ensures !(SameNoCase(name, "Content-Length") && SameNoCase(name, "Transfer-Encoding"))
  {
  }

  lemma OneCoding(value: string)
    ensures !(SameNoCase(value, "chunked") && SameNoCase(value, "identity"))
  {
  }

  // ---------------------------------------------------------------------
  // The end of the stream
  // ---------------------------------------------------------------------

  /** end_of_input: only a body of unknown length may be ended by the stream. */
  function End(p: Parse): HttpError {
    if p.state == Data && p.dataSize == SIZE_UNKNOWN then HeNone else HeDisconnected
  }

  /** A body of unknown length is all that comes until the stream ends. */
  lemma BodyUntilClose(cb: Callbacks, p: Parse, input: string)
    requires p.state == Data && p.dataSize == SIZE_UNKNOWN && p.done.None?
    requires TakesAll(cb, p.log.body, input)
    ensures Run(cb, p, input) == (Took(p, input), "") && End(Run(cb, p, input).0) == HeNone
  {
    assert input[..|input|] == input;
    RunTakes(cb, p, input, |input|);
  }

  /** A body of known length n is the next n bytes; fewer bytes are a lost connection. */
  lemma BodyByLength(cb: Callbacks, p: Parse, input: string)
    requires p.state == Data && p.dataSize != SIZE_UNKNOWN && !p.chunked && p.done.None?
    requires TakesAll(cb, p.log.body, if |input| < p.dataSize then input else input[..p.dataSize])
    ensures |input| >= p.dataSize ==>
              Run(cb, p, input) == (Took(p, input[..p.dataSize]).(done := Some(HeNone)), input[p.dataSize..])
    ensures |input| < p.dataSize ==>
              Run(cb, p, input) == (Took(p, input), "") && End(Run(cb, p, input).0) == HeDisconnected
  {
    if |input| >= p.dataSize {
      RunTakes(cb, p, input, p.dataSize);
    } else {
      assert input[..|input|] == input;
      RunTakes(cb, p, input, |input|);
    }
  }

  /** Where the sink refuses, the parse ends with its error, and the data it refused is left. */
  lemma BodyRefused(cb: Callbacks, p: Parse, input: string, n: nat)
    requires p.state == Data && p.done.None? && n < |input|
    requires p.dataSize == SIZE_UNKNOWN || n < p.dataSize
    requires TakesAll(cb, p.log.body, input[..n]) && cb.onData(p.log.body + input[..n]) != HeNone
    ensures Run(cb, p, input) ==
            (Took(p, input[..n]).(done := Some(cb.onData(p.log.body + input[..n]))), input[n..])
  {
    RunTakes(cb, p, input, n);
  }

  lemma {:induction false} UnknownNeverEnds(cb: Callbacks, p: Parse, input: string)
    requires p.state == Data && p.dataSize == SIZE_UNKNOWN && p.done.None?
    ensures var (q, rest) := Run(cb, p, input); q.done.Some? <==> rest != ""
    decreases |input|
  {
    if input != "" && cb.onData(p.log.body) == HeNone { UnknownNeverEnds(cb, Took(p, input[..1]), input[1..]); }
  }

  /** No message that ends by itself can be cut short without notice. */
  lemma TruncationIsNoticed(cb: Callbacks, p: Parse, x: string, y: string)
    requires Run(cb, p, x + y).0.done.Some? && Run(cb, p, x + y).1 == "" && y != ""
    ensures Run(cb, p, x).0.done.None? && End(Run(cb, p, x).0) == HeDisconnected
  {
    RunSplit(cb, p, x, y);
    var (q, rest) := Run(cb, p, x);
    if q.done.None? && End(q) == HeNone {
      UnknownNeverEnds(cb, q, rest + y);
    }
  }

  // ---------------------------------------------------------------------
  // The parser object
  // ---------------------------------------------------------------------

  class Parser {
    const cb: Callbacks
    var state: State
    var chunked: bool
    var dataSize: size
    var log: Log
    var results: seq<HttpError>   // the calls of onHttpRecvComplete

    constructor (cb: Callbacks)
      ensures View() == START && this.cb == cb && results == []
    {
      results := [];
      this.cb := cb;
      state, chunked, dataSize, log := Leader, false, SIZE_UNKNOWN, Log([], [], [], "");
    }

    function View(): Parse
      reads this
    {
      Parse(state, chunked, dataSize, log, None)
    }

    method Reset()
      modifies this`state, this`chunked, this`dataSize
      ensures View() == START.(log := log)
    {
      state, chunked, dataSize := Leader, false, SIZE_UNKNOWN;
    }

    /** What is still to be done, and what is returned when nothing is. */
    ghost predicate Computes(whole: (Parse, string), rest: string, more: bool, err: HttpError)
      reads this
    {
      && (more ==> err == HeNone && whole == Run(cb, View(), rest))
      && (!more ==> whole == (View().(done := Some(err)), rest))
    }

    /** complete: onHttpRecvComplete is called once at most. */
    method CompleteWith(err: HttpError)
      modifies this`state, this`results
      ensures state == Complete
      ensures results == if old(state) == Complete then old(results) else old(results) + [err]
    {
      if state != Complete {
        state := Complete;
        results := results + [err];
      }
    }

    method EndOfInput()
      modifies this`state, this`results
      ensures state == Complete
      ensures results == if old(state) == Complete then old(results) else old(results) + [End(old(View()))]
    {
      if state == Data && dataSize == SIZE_UNKNOWN {
        CompleteWith(HeNone);
      } else {
        CompleteWith(HeDisconnected);
      }
    }

    method Process(buffer: string) returns (more: bool, processed: nat, err: HttpError)
      requires state != Complete
      modifies this`state, this`chunked, this`dataSize, this`log
      ensures processed <= |buffer| && state != Complete
      ensures Run(cb, old(View()), buffer) ==
              (View().(done := if more then None else Some(err)), buffer[processed..])
      ensures more ==> err == HeNone
    {
      processed, err, more := 0, HeNone, true;
      ghost var whole := Run(cb, View(), buffer);
      while true
        invariant state != Complete && processed <= |buffer| && more
        invariant Computes(whole, buffer[processed..], more, err)
        decreases |buffer| - processed, state == Data
      {
        var idle := false;
        if ReadsLines(state) {
          idle, more, processed, err := TakeLine(buffer, processed);
        } else if dataSize == 0 {
          if chunked {
            state := ChunkTerm;
          } else {
            return false, processed, err;
          }
        } else {
          idle, processed, err := TakeData(buffer, processed);
          more := err == HeNone;
        }
        if idle || !more {
          return;
        }
      }
    }

    /** The part of the loop that reads one line; idle when there is no full line. */
    method TakeLine(buffer: string, from: nat) returns (idle: bool, more: bool, processed: nat, err: HttpError)
      requires ReadsLines(state) && from <= |buffer|
      modifies this`state, this`chunked, this`dataSize, this`log
      ensures from <= processed <= |buffer| && state != Complete
      ensures idle ==> more && processed == from && View() == old(View())
      ensures idle ==> Run(cb, View(), buffer[from..]) == (View(), buffer[from..])
      ensures !idle ==> from < processed
      ensures Computes(Run(cb, old(View()), buffer[from..]), buffer[processed..], more, err)
    {
      hide Line;
      ghost var input := buffer[from..];
      var pos := EndOfLine(buffer, from);
      if pos >= |buffer| {
        return true, true, from, HeNone;
      }
      var line := TrimLine(buffer[from..pos]);
      assert buffer[from..pos] == input[..pos - from];
      assert buffer[pos + 1..] == input[pos - from + 1..];
      idle, processed := false, pos + 1;
      more, err := ProcessLine(line);
    }

    /** The part of the loop that passes body data to the sink; idle when there is none. */
    method TakeData(buffer: string, from: nat) returns (idle: bool, processed: nat, err: HttpError)
      requires state == Data && dataSize != 0 && from <= |buffer|
      modifies this`state, this`chunked, this`dataSize, this`log
      ensures from <= processed <= |buffer| && state == Data
      ensures idle ==> processed == from && View() == old(View()) && err == HeNone
      ensures idle ==> Run(cb, View(), buffer[from..]) == (View(), buffer[from..])
      ensures !idle && err == HeNone ==> from < processed
      ensures Computes(Run(cb, old(View()), buffer[from..]), buffer[processed..], err == HeNone, err)
    {
      ghost var p, input := View(), buffer[from..];
      var available := |buffer| - from;
      if available <= 0 {
        return true, from, HeNone;
      }
      if dataSize != SIZE_UNKNOWN && available > dataSize {
        available := dataSize;
      }
      var read;
      read, err := OnRecvData(buffer[from..from + available]);
      if err != HeNone {
        return false, from, err;
      }
      assert input[..read] == buffer[from..from + available][..read];
      assert input[read..] == buffer[from + read..];
      RunTakes(cb, p, input, read);
      idle, processed := false, from + read;
      if dataSize != SIZE_UNKNOWN {
        dataSize := dataSize - read;
      }
    }

    static method EndOfLine(buffer: string, from: nat) returns (pos: nat)
      requires from <= |buffer|
      ensures from <= pos <= |buffer|
      ensures pos - from == Find(buffer[from..], '\n')
    {
      pos := from;
      while pos < |buffer| && buffer[pos] != '\n'
        invariant from <= pos <= |buffer|
        invariant forall i :: from <= i < pos ==> buffer[i] != '\n'
      {
        pos := pos + 1;
      }
      ghost var input := buffer[from..];
      assert forall i :: 0 <= i < pos - from ==> input[i] == buffer[from + i];
      assert pos < |buffer| ==> input[pos - from] == '\n';
    }

    static method FindColon(line: string) returns (pos: nat)
      ensures pos == Find(line, ':')
    {
      pos := 0;
      while pos < |line| && line[pos] != ':'
        invariant 0 <= pos <= |line|
        invariant forall i :: 0 <= i < pos ==> line[i] != ':'
      {
        pos := pos + 1;
      }
    }

    static method SkipSpaces(line: string, from: nat) returns (pos: nat)
      requires from <= |line|
      ensures pos == from + SpaceSpan(line[from..])
    {
      pos := from;
      while pos < |line| && IsSpace(line[pos])
        invariant from <= pos <= |line|
        invariant forall i :: from <= i < pos ==> IsSpace(line[i])
      {
        pos := pos + 1;
      }
      ghost var tail := line[from..];
      assert forall i :: 0 <= i < pos - from ==> tail[i] == line[from + i];
      assert pos < |line| ==> tail[pos - from] == line[pos];
    }

    static method TrimLine(line: string) returns (t: string)
      ensures t == TrimRight(line)
    {
      var len := |line|;
      while len > 0 && IsSpace(line[len - 1])
        invariant 0 <= len <= |line|
        invariant TrimRight(line[..len]) == TrimRight(line)
      {
        assert line[..len][..len - 1] == line[..len - 1];
        len := len - 1;
      }
      t := line[..len];
    }

    /** The sink refuses, or takes at least one byte and at most what it is offered and does not refuse. */
    method OnRecvData(data: string) returns (read: nat, err: HttpError)
      requires data != []
      modifies this`log
      ensures err == cb.onData(old(log).body)
      ensures err != HeNone ==> log == old(log)
      ensures err == HeNone ==>
        1 <= read <= |data| && TakesAll(cb, old(log).body, data[..read])
        && log == old(log).(body := old(log).body + data[..read])
    {
      err := cb.onData(log.body);
      read := 0;
      if err == HeNone {
        assert data[..1][..0] == "" && log.body + "" == log.body;
        assert TakesAll(cb, log.body, data[..1]);
        read :| 1 <= read <= |data| && TakesAll(cb, log.body, data[..read]);
        log := log.(body := log.body + data[..read]);
      }
    }

    method ProcessLine(line: string) returns (ok: bool, err: HttpError)
      requires ReadsLines(state)
      modifies this`state, this`chunked, this`dataSize, this`log
      ensures Line(cb, old(View()), line) == View().(done := if ok then None else Some(err))
      ensures ok ==> err == HeNone
      ensures state != Complete
    {
      err := HeNone;
      match state {
        case Leader =>
          state := Headers;
          log := log.(leaders := log.leaders + [line]);
          err := cb.onLeader(line);
        case Headers =>
          if |line| > 0 {
            err := ProcessHeader(line);
          } else {
            state := if chunked then ChunkSize else Data;
            log := log.(completions := log.completions + [(chunked, dataSize)]);
            var r := cb.onHeaderComplete(chunked, dataSize);
            err, dataSize := r.0, r.1;
          }
        case ChunkSize =>
          if |line| > 0 {
            var r := Strtoul16(line);
            dataSize := r.0;
            if r.1 != |line| {
              err := HeProtocol;
            } else {
              state := if dataSize == 0 then Trailers else Data;
            }
          } else {
            err := HeProtocol;
          }
        case ChunkTerm =>
          if |line| > 0 {
            err := HeProtocol;
          } else {
            state := if chunked then ChunkSize else Data;
          }
        case Trailers =>
          if |line| == 0 {
            return false, err;
          }
        case Data =>
        case Complete =>
      }
      ok := err == HeNone;
    }

    method ProcessHeader(line: string) returns (err: HttpError)
      modifies this`state, this`chunked, this`dataSize, this`log
      ensures HeaderLine(cb, old(View()), line) == Stop(View(), err)
      ensures state == old(state)
    {
      hide SameNoCase, ScanDecimal, Find, SpaceSpan;
      var colon := FindColon(line);
      if colon == |line| {
        return HeProtocol;
      }
      var value := SkipSpaces(line, colon + 1);
      var name, text := line[..colon], line[value..];
      if SameNoCase(name, "Content-Length") {
        var n := ScanDecimal(text);
        if n.None? {
          return HeProtocol;
        }
        dataSize := n.value;
      } else if SameNoCase(name, "Transfer-Encoding") {
        if SameNoCase(text, "chunked") {
          chunked := true;
        } else if SameNoCase(text, "identity") {
          chunked := false;
        } else {
          return HeProtocol;
        }
      }
      log := log.(headers := log.headers + [(name, text)]);
      err := cb.onHeader(name, text);
    }
  }
}
