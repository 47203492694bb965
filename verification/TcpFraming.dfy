/**
  Packets over a TCP stream, as talk/base/asynctcpsocket.cc frames them: each
  packet behind its length in two bytes, network order.

  `Link` runs a sending and a receiving socket over one byte stream in which
  writes and reads are cut arbitrarily.  The length field has 16 bits while
  Send admits 65536 bytes, so the end-to-end result needs `Short` packets;
  `RoundTripIff` says that this is exactly the condition.
*/
module TcpFraming {
  import opened Prelude

  const MAX_PACKET_SIZE: nat := 65536
  const PKT_LEN_SIZE: nat := 2
  const BUF_SIZE: nat := 65538

  type Packet = seq<byte>

  /** Its length fits the 16 bits of the header. */
  predicate Short(p: Packet) { |p| <= 65535 }

  predicate AllShort(ps: seq<Packet>) { forall i :: 0 <= i < |ps| ==> Short(ps[i]) }

  /** The cast to 16 bits, and HostToNetwork16. */
  function Header(n: nat): (h: seq<byte>)
    ensures |h| == PKT_LEN_SIZE
  {
    [n % 65536 / 256, n % 256]
  }

  function HeaderValue(s: seq<byte>): (n: nat)
    requires |s| >= PKT_LEN_SIZE
    ensures n <= 65535
  {
    s[0] as int * 256 + s[1] as int
  }

  /** Two bytes, the more significant one first, of a length taken modulo 65536. */
  lemma HeaderOrder(high: byte, low: byte, k: nat, more: seq<byte>)
    ensures Header(256 * high + low + 65536 * k) == [high, low]
    ensures HeaderValue([high, low] + more) == 256 * high + low
  {
    var n: nat := 256 * high + low;
    LowDigit(low, high);
    LowDigit(low, high + 256 * k);
    Truncates(n, k);
    assert n + 65536 * k == low + 256 * (high + 256 * k);
  }

  lemma LowDigit(low: byte, rest: nat)
    ensures (low + 256 * rest) % 256 == low && (low + 256 * rest) / 256 == rest
  {
  }

  lemma Truncates(n: nat, k: nat)
    requires n < 65536
    ensures (n + 65536 * k) % 65536 == n
  {
  }

  function Frame(p: Packet): seq<byte> { Header(|p|) + p }

  function Frames(ps: seq<Packet>): seq<byte> {
    if ps == [] then [] else Frame(ps[0]) + Frames(ps[1..])
  }

  /** s starts with a whole frame. */
  predicate HasFrame(s: seq<byte>) {
    |s| >= PKT_LEN_SIZE && |s| >= PKT_LEN_SIZE + HeaderValue(s)
  }

  /** The packets in a stream and the incomplete rest. */
  function Deframe(s: seq<byte>): (r: (seq<Packet>, seq<byte>)) {
    if !HasFrame(s) then ([], s)
    else
      var end := PKT_LEN_SIZE + HeaderValue(s);
      var (ps, rest) := Deframe(s[end..]);
      ([s[PKT_LEN_SIZE..end]] + ps, rest)
  }

  // ---------------------------------------------------------------------
  // Framing and deframing
  // ---------------------------------------------------------------------

  lemma HeaderRoundTrip(p: Packet, more: seq<byte>)
    ensures |Frame(p) + more| >= PKT_LEN_SIZE
    ensures HeaderValue(Frame(p) + more) == |p| % 65536
  {
  }

  lemma DeframeOne(p: Packet, more: seq<byte>)
    requires Short(p)
    ensures Deframe(Frame(p) + more) == ([p] + Deframe(more).0, Deframe(more).1)
  {
    HeaderRoundTrip(p, more);
    var s := Frame(p) + more;
    assert s[PKT_LEN_SIZE..PKT_LEN_SIZE + |p|] == p;
    assert s[PKT_LEN_SIZE + |p|..] == more;
  }

  lemma {:induction false} FramesAppend(ps: seq<Packet>, p: Packet)
    ensures Frames(ps + [p]) == Frames(ps) + Frame(p)
  {
    if ps == [] {
      assert Frames([p]) == Frame(p) + Frames([]);
      assert [] + [p] == [p];
    } else {
      FramesAppend(ps[1..], p);
      assert (ps + [p])[1..] == ps[1..] + [p];
    }
  }

  lemma HasFrameSplit(x: seq<byte>, y: seq<byte>)
    requires HasFrame(x)
    ensures HasFrame(x + y) && HeaderValue(x + y) == HeaderValue(x)
    ensures var end := PKT_LEN_SIZE + HeaderValue(x);
            (x + y)[PKT_LEN_SIZE..end] == x[PKT_LEN_SIZE..end] && (x + y)[end..] == x[end..] + y
  {
  }

  /** Taking the first frame off. */
  lemma DeframeFirst(delivered: seq<Packet>, s: seq<byte>)
    requires HasFrame(s)
    ensures var end := PKT_LEN_SIZE + HeaderValue(s);
            && delivered + Deframe(s).0 == (delivered + [s[PKT_LEN_SIZE..end]]) + Deframe(s[end..]).0
            && Deframe(s).1 == Deframe(s[end..]).1
  {
    var end := PKT_LEN_SIZE + HeaderValue(s);
    var p, ps := s[PKT_LEN_SIZE..end], Deframe(s[end..]).0;
    assert Deframe(s).0 == [p] + ps && Deframe(s).1 == Deframe(s[end..]).1;
    hide Deframe, HeaderValue;
    assert delivered + ([p] + ps) == (delivered + [p]) + ps;
  }

  /** Deframing part of a stream and then the rest is deframing all of it. */
  lemma {:induction false} DeframeSplit(x: seq<byte>, y: seq<byte>)
    ensures var (ps, rest) := Deframe(x);
            Deframe(x + y) == (ps + Deframe(rest + y).0, Deframe(rest + y).1)
    decreases |x|
  {
    hide HeaderValue;
    if HasFrame(x) {
      var end := PKT_LEN_SIZE + HeaderValue(x);
      HasFrameSplit(x, y);
      DeframeSplit(x[end..], y);
      var (ps, rest) := Deframe(x[end..]);
      var first := [x[PKT_LEN_SIZE..end]];
      assert first + (ps + Deframe(rest + y).0) == (first + ps) + Deframe(rest + y).0;
    } else {
      assert [] + Deframe(x + y).0 == Deframe(x + y).0;
    }
  }

  /** The rest is always shorter than the largest frame. */
  lemma {:induction false} RestIsShort(s: seq<byte>)
    ensures |Deframe(s).1| < PKT_LEN_SIZE + 65535
    decreases |s|
  {
    if HasFrame(s) {
      RestIsShort(s[PKT_LEN_SIZE + HeaderValue(s)..]);
    }
  }

  /** Deframing what was framed gives back the packets, and no rest. */
  lemma {:induction false} RoundTrip(ps: seq<Packet>)
    requires AllShort(ps)
    ensures Deframe(Frames(ps)) == (ps, [])
    decreases |ps|
  {
    if ps != [] {
      RoundTrip(ps[1..]);
      DeframeOne(ps[0], Frames(ps[1..]));
      assert [ps[0]] + ps[1..] == ps;
    }
  }

  /** A packet of 65536 bytes is framed as if it were empty. */
  lemma LongPacketIsLost(p: Packet, more: seq<byte>)
    requires |p| == MAX_PACKET_SIZE
    ensures Deframe(Frame(p) + more) == ([[]] + Deframe(p + more).0, Deframe(p + more).1)
  {
    HeaderRoundTrip(p, more);
    var s := Frame(p) + more;
    assert s[PKT_LEN_SIZE..PKT_LEN_SIZE] == [];
    assert s[PKT_LEN_SIZE..] == p + more;
  }

  /** Of the packets Send admits, exactly the short ones survive. */
  lemma {:induction false} RoundTripIff(ps: seq<Packet>)
    requires forall i :: 0 <= i < |ps| ==> |ps[i]| <= MAX_PACKET_SIZE
    ensures Deframe(Frames(ps)).0 == ps <==> AllShort(ps)
    decreases |ps|
  {
    if AllShort(ps) {
      RoundTrip(ps);
    } else {
      var p, rest := ps[0], ps[1..];
      if Short(p) {
        DeframeOne(p, Frames(rest));
        var tail := Deframe(Frames(rest)).0;
        RoundTripIff(rest);
        assert !AllShort(rest) by {
          var i :| 0 <= i < |ps| && !Short(ps[i]);
          assert rest[i - 1] == ps[i];
        }
        assert ([p] + tail)[1..] == tail;
      } else {
        LongPacketIsLost(p, Frames(rest));
        assert Deframe(Frames(ps)).0[0] == [];
      }
    }
  }

  /** Whatever part of the stream has arrived, what it holds is a prefix of what was sent. */
  lemma PrefixDelivered(ps: seq<Packet>, received: seq<byte>)
    requires AllShort(ps) && received <= Frames(ps)
    ensures Deframe(received).0 <= ps
  {
    RoundTrip(ps);
    var tail := Frames(ps)[|received|..];
    assert received + tail == Frames(ps);
    DeframeSplit(received, tail);
  }

  // ---------------------------------------------------------------------
  // The socket
  // ---------------------------------------------------------------------

  /** The output half of AsyncTCPSocket. */
  class Output {
    const outbuf: array<byte>
    var outpos: nat
    var wire: seq<byte>             // what the stream has accepted
    ghost var accepted: seq<Packet> // the packets Send did not drop

    ghost predicate Valid()
      reads this, outbuf
    {
      && outbuf.Length == BUF_SIZE && outpos <= BUF_SIZE
      && wire + outbuf[..outpos] == Frames(accepted)
      && forall i :: 0 <= i < |accepted| ==> |accepted[i]| <= MAX_PACKET_SIZE
    }

    constructor ()
      ensures Valid() && fresh(outbuf)
      ensures accepted == [] && wire == [] && outpos == 0
    {
      outbuf := new byte[BUF_SIZE];
      outpos, wire, accepted := 0, [], [];
    }

    /** The stream answers how many bytes it takes; what is not positive is an error, or that it would block. */
    method Flush(answer: int) returns (res: int)
      requires outbuf.Length == BUF_SIZE && outpos <= BUF_SIZE
      modifies this`outpos, this`wire, outbuf
      ensures res == if answer <= old(outpos) then answer else -1
      ensures res <= 0 ==> wire == old(wire) && outpos == old(outpos) && outbuf[..] == old(outbuf[..])
      ensures res > 0 ==> outpos == old(outpos) - res && wire == old(wire + outbuf[..outpos][..res])
      ensures res > 0 ==> outbuf[..outpos] == old(outbuf[..outpos])[res..]
    {
      res := answer;
      if res <= 0 {
        return;
      }
      if res > outpos {
        return -1;
      }
      ghost var rest := outbuf[res..outpos];
      assert outbuf[..outpos] == outbuf[..res] + rest;
      wire := wire + outbuf[..res];
      outpos := outpos - res;
      forall i | 0 <= i < outpos {
        outbuf[i] := outbuf[res + i];
      }
      assert outbuf[..outpos] == rest;
    }

    method StoreFrame(pv: Packet)
      requires outbuf.Length == BUF_SIZE && |pv| <= MAX_PACKET_SIZE
      modifies this`outpos, outbuf
      ensures outpos == |Frame(pv)| <= BUF_SIZE && outbuf[..outpos] == Frame(pv)
    {
      var head := Header(|pv|);
      outbuf[0], outbuf[1] := head[0], head[1];
      forall i | 0 <= i < |pv| {
        outbuf[PKT_LEN_SIZE + i] := pv[i];
      }
      outpos := PKT_LEN_SIZE + |pv|;
    }

    /** The packet is dropped when the stream still blocks or takes nothing of it. */
    method Send(pv: Packet, answer: int) returns (res: int)
      requires Valid()
      modifies this, outbuf
      ensures Valid()
      ensures if Takes(pv, old(outpos), answer) then
                && res == |pv| && accepted == old(accepted) + [pv]
                && wire == old(wire) + Frame(pv)[..answer] && outbuf[..outpos] == Frame(pv)[answer..]
              else
                && accepted == old(accepted) && wire == old(wire)
                && outpos == old(outpos) && outbuf[..outpos] == old(outbuf[..outpos])
                && res == if |pv| > MAX_PACKET_SIZE then -1
                          else if old(outpos) > 0 then |pv|
                          else if answer <= 0 then answer
                          else -1
    {
      var cb := |pv|;
      if cb > MAX_PACKET_SIZE {
        return -1;
      }
      if outpos > 0 {
        return cb;
      }
      hide Frames, Frame;
      assert wire + outbuf[..0] == wire;
      StoreFrame(pv);
      res := Flush(answer);
      if res <= 0 {
        outpos := 0;
        assert wire + outbuf[..0] == wire;
        return;
      }
      FramesAppend(accepted, pv);
      FrameParts(accepted, pv, res);
      accepted := accepted + [pv];
      return cb;
    }

    method OnWriteEvent(answer: int)
      requires Valid()
      modifies this`outpos, this`wire, outbuf
      ensures Valid()
      ensures if 0 < answer <= old(outpos) then
                && wire == old(wire + outbuf[..outpos][..answer])
                && outbuf[..outpos] == old(outbuf[..outpos])[answer..]
              else
                wire == old(wire) && outbuf[..outpos] == old(outbuf[..outpos])
    {
      hide Frames;
      ghost var before := outbuf[..outpos];
      if outpos > 0 {
        var res := Flush(answer);
        if res > 0 {
          assert before == before[..res] + before[res..];
          assert wire + outbuf[..outpos] == old(wire) + before;
        }
      }
    }
  }

  /** The packet is admitted, nothing is waiting, and the stream takes some of it. */
  predicate Takes(p: Packet, pending: nat, answer: int) {
    |p| <= MAX_PACKET_SIZE && pending == 0 && 0 < answer <= PKT_LEN_SIZE + |p|
  }

  lemma FrameParts(accepted: seq<Packet>, p: Packet, n: nat)
    requires n <= |Frame(p)|
    ensures (Frames(accepted) + Frame(p)[..n]) + Frame(p)[n..] == Frames(accepted + [p])
  {
    FramesAppend(accepted, p);
    hide Frames;
    assert Frame(p)[..n] + Frame(p)[n..] == Frame(p);
  }

  /** The input half of AsyncTCPSocket. */
  class Input {
    const inbuf: array<byte>
    var inpos: nat
    var delivered: seq<Packet>     // what was signalled
    ghost var received: seq<byte>  // what the stream delivered

    ghost predicate Valid()
      reads this, inbuf
    {
      && inbuf.Length == BUF_SIZE && inpos < BUF_SIZE
      && Deframe(received) == (delivered, inbuf[..inpos])
    }

    constructor ()
      ensures Valid() && fresh(inbuf)
      ensures delivered == [] && received == []
    {
      inbuf := new byte[BUF_SIZE];
      inpos, delivered, received := 0, [], [];
    }

    method ProcessInput()
      requires inbuf.Length == BUF_SIZE && inpos <= BUF_SIZE
      modifies this`inpos, this`delivered, inbuf
      ensures inpos < BUF_SIZE
      ensures var (ps, rest) := Deframe(old(inbuf[..inpos]));
              delivered == old(delivered) + ps && inbuf[..inpos] == rest
    {
      ghost var start := inbuf[..inpos];
      RestIsShort(start);
      while true
        invariant inpos <= BUF_SIZE
        invariant delivered + Deframe(inbuf[..inpos]).0 == old(delivered) + Deframe(start).0
        invariant Deframe(inbuf[..inpos]).1 == Deframe(start).1
        decreases inpos
      {
        ghost var data := inbuf[..inpos];
        if inpos < PKT_LEN_SIZE {
          return;
        }
        var pktLen := inbuf[0] as int * 256 + inbuf[1] as int;
        if inpos < PKT_LEN_SIZE + pktLen {
          return;
        }
        var end := PKT_LEN_SIZE + pktLen;
        assert data[PKT_LEN_SIZE..end] == inbuf[PKT_LEN_SIZE..end];
        DeframeFirst(delivered, data);
        hide Deframe;
        delivered := delivered + [inbuf[PKT_LEN_SIZE..end]];
        MoveFront(end);
      }
    }

    /** The memmove of ProcessInput. */
    method MoveFront(end: nat)
      requires end <= inpos <= inbuf.Length
      modifies this`inpos, inbuf
      ensures inpos == old(inpos) - end && inbuf[..inpos] == old(inbuf[..inpos])[end..]
    {
      inpos := inpos - end;
      forall i | 0 <= i < inpos {
        inbuf[i] := inbuf[end + i];
      }
    }

    /** One receive of the stream; the input overflow branch is unreachable. */
    method OnReadEvent(data: seq<byte>)
      requires Valid() && inpos + |data| <= BUF_SIZE
      modifies this, inbuf
      ensures Valid() && received == old(received) + data
      ensures old(delivered) <= delivered
    {
      ghost var pending := inbuf[..inpos];
      forall i | 0 <= i < |data| {
        inbuf[inpos + i] := data[i];
      }
      inpos := inpos + |data|;
      assert inbuf[..inpos] == pending + data;
      DeframeSplit(received, data);
      received := received + data;
      ProcessInput();
      if inpos >= BUF_SIZE {
        assert false;
      }
    }
  }

  // ---------------------------------------------------------------------
  // End to end
  // ---------------------------------------------------------------------

  /** What happens, with the answer of the stream to a write, and the most it delivers to a read. */
  datatype Event = Offer(packet: Packet, answer: int) | Writable(answer: int) | Readable(most: nat)

  /** What waits in the output buffer, what the stream took, the packets not dropped, and what was read. */
  datatype Ends = Ends(pending: seq<byte>, wire: seq<byte>, accepted: seq<Packet>, received: seq<byte>)

  const START := Ends([], [], [], [])

  /** How much a read delivers: what is there, as far as it fits behind the incomplete frame. */
  function ReadSize(e: Ends, most: nat): (n: nat)
    requires e.received <= e.wire
    ensures |e.received| + n <= |e.wire|
  {
    RestIsShort(e.received);
    Min(most, Min(|e.wire| - |e.received|, BUF_SIZE - |Deframe(e.received).1|))
  }

  function After(e: Ends, event: Event): (e': Ends)
    requires e.received <= e.wire
    ensures e'.received <= e'.wire
  {
    match event
    case Offer(p, answer) =>
      if Takes(p, |e.pending|, answer) then
        Ends(Frame(p)[answer..], e.wire + Frame(p)[..answer], e.accepted + [p], e.received)
      else e
    case Writable(answer) =>
      if 0 < answer <= |e.pending| then e.(pending := e.pending[answer..], wire := e.wire + e.pending[..answer]) else e
    case Readable(most) => e.(received := e.wire[..|e.received| + ReadSize(e, most)])
  }

  function AfterAll(events: seq<Event>): (e: Ends)
    ensures e.received <= e.wire
  {
    if events == [] then START else After(AfterAll(events[..|events| - 1]), events[|events| - 1])
  }

  /**
    On a quiet link a packet of which the stream takes anything arrives: when the
    rest of it is written and read, it is delivered behind all others.
  */
  lemma PacketArrives(e: Ends, p: Packet, k: nat)
    requires e.pending == [] && e.received == e.wire == Frames(e.accepted) && AllShort(e.accepted)
    requires Short(p) && 0 < k <= PKT_LEN_SIZE + |p|
    ensures var n := PKT_LEN_SIZE + |p|;
            var e' := After(After(After(e, Offer(p, k)), Writable(n - k)), Readable(n));
            && e'.pending == [] && e'.received == e'.wire && e'.accepted == e.accepted + [p]
            && Deframe(e'.received) == (e'.accepted, [])
  {
    var n := PKT_LEN_SIZE + |p|;
    var two := After(After(e, Offer(p, k)), Writable(n - k));
    PacketLeaves(e, p, k);
    RoundTrip(e.accepted);
    RoundTrip(e.accepted + [p]);
    FramesAppend(e.accepted, p);
    var read := After(two, Readable(n));
    hide Frames, Deframe, Frame, After, AllShort;
    assert ReadSize(two, n) == n;
    AllRead(two, n);
  }

  lemma AllRead(e: Ends, n: nat)
    requires e.received <= e.wire && |e.received| + ReadSize(e, n) == |e.wire|
    ensures After(e, Readable(n)) == e.(received := e.wire)
  {
    hide ReadSize;
    assert e.wire[..|e.wire|] == e.wire;
  }

  lemma PacketLeaves(e: Ends, p: Packet, k: nat)
    requires e.pending == [] && e.received <= e.wire && Short(p) && 0 < k <= PKT_LEN_SIZE + |p|
    ensures After(After(e, Offer(p, k)), Writable(PKT_LEN_SIZE + |p| - k)) ==
            Ends([], e.wire + Frame(p), e.accepted + [p], e.received)
  {
    var rest := Frame(p)[k..];
    assert |rest| == PKT_LEN_SIZE + |p| - k;
    assert e.wire + Frame(p) == (e.wire + Frame(p)[..k]) + rest;
    assert rest[|rest|..] == [] && rest[..|rest|] == rest;
    assert rest == [] ==> e.wire + Frame(p)[..k] == e.wire + Frame(p);
    hide Frame;
  }

  function Offered(events: seq<Event>): seq<Packet> {
    if events == [] then []
    else
      var n := |events| - 1;
      Offered(events[..n]) + if events[n].Offer? then [events[n].packet] else []
  }

  lemma {:induction false} SubsequenceShort(xs: seq<Packet>, ys: seq<Packet>)
    requires Subsequence(xs, ys) && AllShort(ys)
    ensures AllShort(xs)
    decreases |ys|
  {
    if xs != [] {
      var m, n := |xs| - 1, |ys| - 1;
      if Subsequence(xs, ys[..n]) {
        SubsequenceShort(xs, ys[..n]);
      } else {
        SubsequenceShort(xs[..m], ys[..n]);
        assert Short(ys[n]);
        assert xs == xs[..m] + [xs[m]];
      }
    }
  }

  /** The two ends of a link agree, whatever is in flight. */
  lemma EndToEnd(accepted: seq<Packet>, wire: seq<byte>, pending: seq<byte>, received: seq<byte>)
    requires AllShort(accepted)
    requires wire + pending == Frames(accepted) && received <= wire
    ensures Deframe(received).0 <= accepted
    ensures received == wire && pending == [] ==> Deframe(received).0 == accepted
  {
    hide Deframe, Frames;
    assert received <= wire + pending;
    PrefixDelivered(accepted, received);
    RoundTrip(accepted);
    assert wire + [] == wire;
  }

  lemma OfferedNext(events: seq<Event>, n: nat)
    requires n < |events|
    ensures Offered(events[..n + 1]) ==
            Offered(events[..n]) + if events[n].Offer? then [events[n].packet] else []
  {
    assert events[..n + 1][..n] == events[..n];
  }

  /** Two sockets over one stream, of which `taken` bytes have been read. */
  ghost predicate Linked(out: Output, inp: Input, taken: nat)
    reads out, out.outbuf, inp, inp.inbuf
  {
    && out.Valid() && inp.Valid() && out.outbuf != inp.inbuf
    && inp.received <= out.wire && taken == |inp.received|
  }

  ghost function EndsOf(out: Output, inp: Input): Ends
    requires out.outpos <= out.outbuf.Length
    reads out, out.outbuf, inp
  {
    Ends(out.outbuf[..out.outpos], out.wire, out.accepted, inp.received)
  }

  method Step(event: Event, out: Output, inp: Input, taken: nat) returns (taken': nat)
    requires Linked(out, inp, taken)
    modifies out, out.outbuf, inp, inp.inbuf
    ensures Linked(out, inp, taken') && EndsOf(out, inp) == After(old(EndsOf(out, inp)), event)
  {
    hide Deframe, Frames, Frame;
    taken' := taken;
    match event {
      case Offer(packet, answer) => var _ := out.Send(packet, answer);
      case Writable(answer) => out.OnWriteEvent(answer);
      case Readable(most) => taken' := Read(most, out, inp, taken);
    }
  }

  method Read(most: nat, out: Output, inp: Input, taken: nat) returns (taken': nat)
    requires Linked(out, inp, taken)
    modifies inp, inp.inbuf
    ensures Linked(out, inp, taken') && EndsOf(out, inp) == After(old(EndsOf(out, inp)), Readable(most))
  {
    hide Deframe, Frames;
    ghost var e := EndsOf(out, inp);
    var n := Min(most, Min(|out.wire| - taken, BUF_SIZE - inp.inpos));
    assert n == ReadSize(e, most);
    taken' := taken + n;
    inp.OnReadEvent(out.wire[taken..taken']);
    assert inp.received == out.wire[..taken] + out.wire[taken..taken'] == out.wire[..taken'];
  }

  /** The link is where the events lead, and only packets that were offered were accepted. */
  ghost predicate Tracks(events: seq<Event>, n: nat, e: Ends) {
    n <= |events| && e == AfterAll(events[..n]) && Subsequence(e.accepted, Offered(events[..n]))
  }

  lemma TracksNext(events: seq<Event>, n: nat, e: Ends)
    requires Tracks(events, n, e) && n < |events| && e.received <= e.wire
    ensures Tracks(events, n + 1, After(e, events[n]))
  {
    OfferedNext(events, n);
    var before := Offered(events[..n]);
    assert events[..n + 1][..n] == events[..n];
    assert before + [] == before;
    if events[n].Offer? { SubsequenceGrows(e.accepted, before, events[n].packet); }
    hide Subsequence, Offered, Frame, ReadSize;
  }

  /**
    Any schedule of sends, writable events and readable events.  The delivered
    packets are a prefix of the accepted ones, those are an in-order selection of
    the offered ones, and once the stream is drained nothing is missing.
  */
  method Link(events: seq<Event>) returns (out: Output, inp: Input, taken: nat)
    ensures Linked(out, inp, taken) && EndsOf(out, inp) == AfterAll(events)
    ensures Subsequence(out.accepted, Offered(events))
    ensures AllShort(Offered(events)) ==> AllShort(out.accepted)
    ensures AllShort(out.accepted) ==> inp.delivered <= out.accepted && Subsequence(inp.delivered, Offered(events))
    ensures AllShort(out.accepted) && out.outpos == 0 && taken == |out.wire| ==> inp.delivered == out.accepted
  {
    out := new Output();
    inp := new Input();
    taken := Drive(events, out, inp);
    hide Subsequence, Offered, Linked, Tracks;
    LinkedSo(out, inp, taken, Offered(events));
  }

  method Drive(events: seq<Event>, out: Output, inp: Input) returns (taken: nat)
    requires Linked(out, inp, 0) && EndsOf(out, inp) == START
    modifies out, out.outbuf, inp, inp.inbuf
    ensures Linked(out, inp, taken) && EndsOf(out, inp) == AfterAll(events)
    ensures Subsequence(out.accepted, Offered(events))
  {
    taken := 0;
    var n := 0;
    assert Tracks(events, 0, START);
    hide Subsequence, Offered, Tracks, After;
    while n < |events|
      invariant n <= |events| && Linked(out, inp, taken) && Tracks(events, n, EndsOf(out, inp))
    {
      TracksNext(events, n, EndsOf(out, inp));
      taken := Step(events[n], out, inp, taken);
      n := n + 1;
    }
    TracksAll(events, EndsOf(out, inp));
  }

  lemma TracksAll(events: seq<Event>, e: Ends)
    requires Tracks(events, |events|, e)
    ensures e == AfterAll(events) && Subsequence(e.accepted, Offered(events))
  {
    assert events[..|events|] == events;
  }

  lemma LinkedSo(out: Output, inp: Input, taken: nat, offered: seq<Packet>)
    requires Linked(out, inp, taken) && Subsequence(out.accepted, offered)
    ensures AllShort(offered) ==> AllShort(out.accepted)
    ensures AllShort(out.accepted) ==> inp.delivered <= out.accepted && Subsequence(inp.delivered, offered)
    ensures AllShort(out.accepted) && out.outpos == 0 && taken == |out.wire| ==> inp.delivered == out.accepted
  {
    hide Linked, Subsequence, Frames, Deframe;
    if AllShort(offered) { SubsequenceShort(out.accepted, offered); }
    if AllShort(out.accepted) {
      LinkedAgree(out, inp, taken);
      SubsequencePrefix(out.accepted, |inp.delivered|, offered);
      assert out.accepted[..|inp.delivered|] == inp.delivered;
    }
  }

  lemma LinkedAgree(out: Output, inp: Input, taken: nat)
    requires Linked(out, inp, taken) && AllShort(out.accepted)
    ensures inp.delivered <= out.accepted
    ensures out.outpos == 0 && taken == |out.wire| ==> inp.delivered == out.accepted
  {
    EndToEnd(out.accepted, out.wire, out.outbuf[..out.outpos], inp.received);
    hide Frames, Deframe, AllShort;
  }
}
