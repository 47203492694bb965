/**
  The primary/backup negotiation of redundancy/fool_redundancy.cpp.

  A server owns two threads.  The negotiate thread reads its role, waits for a
  broadcast and acts on it; the heartbeat thread may overwrite the role between
  the read and the act.  `Server` is the state the two threads share, the
  functions below it are the effect of one thread step, and class `Node` is the
  imperative form of the same server, proved against those functions.

  `Pair` puts two servers and one in-order queue per direction together.
  `Invariant` describes the messages in flight; it is kept by every step of
  every run, and the safety results follow from it.  `Drive` runs two `Node`
  objects under any schedule of their steps.
*/
module Redundancy {
  import opened Prelude

  datatype Role =
    | WhoAmI
    | ActiveQuiter
    | PrimaryWithoutBackup
    | PrimaryWithBackup
    | BackupWithPrimary

  datatype Phase = Down | Up | Stopped

  const NEGOTIATE_MAX_COUNT := 15
  const MAX_HEARTBEAT_ERROR_COUNT := 3

  /**
    ip        the server's address; `<` stands for the order of stricmp
    count     negotiate_count
    seen      the negotiate thread's local copy of the role, once it was read
    hbSeen    the same for the heartbeat thread
    errCount  err_count of the heartbeat thread
    jumped    whether the inactive_quit jump was taken
  */
  datatype Server = Server(
    ip: int, phase: Phase, role: Role, mate: Option<int>, count: nat,
    seen: Option<Role>, hbSeen: Option<Role>, errCount: nat, jumped: bool)

  function Fresh(ip: int): Server {
    Server(ip, Down, WhoAmI, None, 0, None, None, 0, false)
  }

  predicate Primary(r: Role) { r == PrimaryWithoutBackup || r == PrimaryWithBackup }

  predicate Paired(r: Role) { r == PrimaryWithBackup || r == BackupWithPrimary }

  // ---------------------------------------------------------------------
  // One server: the effect of a thread step and what it broadcasts
  // ---------------------------------------------------------------------

  function DoStart(s: Server): (Server, seq<Role>) {
    (s.(phase := Up, role := WhoAmI), [WhoAmI])
  }

  predicate TimedOut(s: Server) { s.count > NEGOTIATE_MAX_COUNT && s.role == WhoAmI }

  function DoReadRole(s: Server): Server {
    var role := if TimedOut(s) then PrimaryWithoutBackup else s.role;
    s.(role := role, seen := Some(role))
  }

  /** No broadcast arrived within the receive timeout. */
  function DoTimeout(s: Server): (Server, seq<Role>)
    requires s.seen.Some?
  {
    var t := s.(seen := None);
    if s.seen.value == WhoAmI then (t.(count := s.count + 1), [s.role]) else (t, [])
  }

  /** The server's own broadcast, or one with another server id, arrived. */
  function DoIgnore(s: Server): Server
    requires s.seen.Some?
  {
    s.(seen := None, count := if s.seen.value == WhoAmI then s.count + 1 else s.count)
  }

  /** The two nested switches over the remote role and the role read before. */
  function DoReceive(s: Server, remote: Role, from: int): (Server, seq<Role>)
    requires s.seen.Some?
  {
    var t := s.(seen := None);
    match (remote, s.seen.value)
    case (WhoAmI, WhoAmI) =>
      (if s.ip > from then t.(role := PrimaryWithoutBackup) else t, [])
    case (WhoAmI, PrimaryWithoutBackup) =>
      (t.(role := PrimaryWithBackup, mate := Some(from)), [s.role])
    case (WhoAmI, PrimaryWithBackup) => (t, [s.role])
    case (WhoAmI, BackupWithPrimary) => (t, [s.role])
    case (ActiveQuiter, PrimaryWithBackup) => (t.(role := PrimaryWithoutBackup, mate := None), [])
    case (ActiveQuiter, BackupWithPrimary) => (t.(role := PrimaryWithoutBackup, mate := None), [])
    case (PrimaryWithoutBackup, WhoAmI) =>
      (t.(role := BackupWithPrimary, mate := Some(from)), [])
    case (PrimaryWithBackup, WhoAmI) => (t.(phase := Stopped, jumped := true), [])
    case (BackupWithPrimary, WhoAmI) => (t.(phase := Stopped, jumped := true), [])
    case (_, _) => (t, [])
  }

  function DoQuit(s: Server): (Server, seq<Role>) {
    (s.(phase := Stopped, role := ActiveQuiter), [ActiveQuiter])
  }

  function DoHeartbeatRead(s: Server): Server {
    if Paired(s.role) then s.(hbSeen := Some(s.role)) else s.(hbSeen := None, errCount := 0)
  }

  function DoHeartbeatOk(s: Server): Server { s.(hbSeen := None, errCount := 0) }

  predicate HeartbeatExpired(s: Server) { s.errCount > MAX_HEARTBEAT_ERROR_COUNT }

  function DoHeartbeatMissed(s: Server): Server {
    var t := s.(hbSeen := None, errCount := s.errCount + 1);
    if HeartbeatExpired(s) then t.(role := PrimaryWithoutBackup) else t
  }

  /** The threads as an object whose fields they update. */
  class Node {
    const ip: int
    var phase: Phase
    var iAm: Role
    var mateIp: Option<int>
    var negotiateCount: nat
    var seen: Option<Role>
    var hbSeen: Option<Role>
    var errCount: nat
    var jumped: bool

    function View(): Server
      reads this
    {
      Server(ip, phase, iAm, mateIp, negotiateCount, seen, hbSeen, errCount, jumped)
    }

    constructor (ip: int)
      ensures View() == Fresh(ip)
    {
      this.ip := ip;
      phase, iAm, mateIp, negotiateCount := Down, WhoAmI, None, 0;
      seen, hbSeen, errCount, jumped := None, None, 0, false;
    }

    method SetMyRole(newRole: Role)
      modifies this`iAm
      ensures iAm == newRole
    {
      iAm := newRole;
    }

    /** Sends whatever the role is now, which need not be the role read before. */
    method BroadcastMyRole() returns (sent: seq<Role>)
      ensures sent == [iAm]
    {
      sent := [iAm];
    }

    method Start() returns (sent: seq<Role>)
      modifies this
      ensures (View(), sent) == DoStart(old(View()))
    {
      SetMyRole(WhoAmI);
      sent := BroadcastMyRole();
      phase := Up;
    }

    method ReadRole()
      modifies this
      ensures View() == DoReadRole(old(View()))
    {
      var role := iAm;
      if negotiateCount > NEGOTIATE_MAX_COUNT && role == WhoAmI {
        SetMyRole(PrimaryWithoutBackup);
        role := iAm;
      }
      seen := Some(role);
    }

    method ReceiveTimeout() returns (sent: seq<Role>)
      requires seen.Some?
      modifies this
      ensures (View(), sent) == DoTimeout(old(View()))
    {
      var role := seen.value;
      seen, sent := None, [];
      if role == WhoAmI {
        negotiateCount := negotiateCount + 1;
        sent := BroadcastMyRole();
      }
    }

    method ReceiveForeign()
      requires seen.Some?
      modifies this
      ensures View() == DoIgnore(old(View()))
    {
      if seen.value == WhoAmI { negotiateCount := negotiateCount + 1; }
      seen := None;
    }

    method Receive(remote: Role, from: int) returns (sent: seq<Role>)
      requires seen.Some?
      modifies this
      ensures (View(), sent) == DoReceive(old(View()), remote, from)
    {
      var role := seen.value;
      seen, sent := None, [];
      match remote {
        case WhoAmI =>
          match role {
            case WhoAmI =>
              if ip > from { SetMyRole(PrimaryWithoutBackup); }
            case PrimaryWithoutBackup =>
              sent := BroadcastMyRole();
              SetMyRole(PrimaryWithBackup);
              mateIp := Some(from);
            case PrimaryWithBackup => sent := BroadcastMyRole();
            case BackupWithPrimary => sent := BroadcastMyRole();
            case ActiveQuiter =>
          }
        case ActiveQuiter =>
          if role == PrimaryWithBackup || role == BackupWithPrimary {
            SetMyRole(PrimaryWithoutBackup);
            mateIp := None;
          }
        case PrimaryWithoutBackup =>
          if role == WhoAmI {
            SetMyRole(BackupWithPrimary);
            mateIp := Some(from);
          }
        case PrimaryWithBackup =>
          if role == WhoAmI { InactiveQuit(); }
        case BackupWithPrimary =>
          if role == WhoAmI { InactiveQuit(); }
      }
    }

    method InactiveQuit()
      modifies this`phase, this`jumped
      ensures phase == Stopped && jumped
    {
      phase, jumped := Stopped, true;
    }

    method Quit() returns (sent: seq<Role>)
      modifies this
      ensures (View(), sent) == DoQuit(old(View()))
    {
      SetMyRole(ActiveQuiter);
      sent := BroadcastMyRole();
      phase := Stopped;
    }

    method HeartbeatRead()
      modifies this
      ensures View() == DoHeartbeatRead(old(View()))
    {
      var role := iAm;
      if role == PrimaryWithBackup || role == BackupWithPrimary {
        hbSeen := Some(role);
      } else {
        hbSeen, errCount := None, 0;
      }
    }

    method HeartbeatOk()
      modifies this
      ensures View() == DoHeartbeatOk(old(View()))
    {
      hbSeen, errCount := None, 0;
    }

    method HeartbeatMissed()
      modifies this
      ensures View() == DoHeartbeatMissed(old(View()))
    {
      var before := errCount;
      errCount, hbSeen := errCount + 1, None;
      if before > MAX_HEARTBEAT_ERROR_COUNT { SetMyRole(PrimaryWithoutBackup); }
    }
  }

  // ---------------------------------------------------------------------
  // Two servers and the queues between them
  // ---------------------------------------------------------------------

  datatype Pair = Pair(me: Server, peer: Server, toMe: seq<Role>, toPeer: seq<Role>)

  datatype Action =
    | Start | ReadRole | Timeout | Ignore | Receive | Quit
    | HeartbeatRead | HeartbeatOk | HeartbeatMissed

  function Flip(p: Pair): Pair { Pair(p.peer, p.me, p.toPeer, p.toMe) }

  /** A broadcast to a server that is not running is lost. */
  function Publish(p: Pair, r: (Server, seq<Role>)): Pair {
    p.(me := r.0, toPeer := if p.peer.phase == Up then p.toPeer + r.1 else p.toPeer)
  }

  /**
    When server `me` may take a step.  Besides the program points of the two
    threads this holds the environment's part: a server starts once, and neither
    timeout promotion fires while the other server is running.
  */
  predicate Enabled(p: Pair, a: Action) {
    match a
    case Start => p.me.phase == Down
    case ReadRole => p.me.phase == Up && p.me.seen.None? && (TimedOut(p.me) ==> p.peer.phase != Up)
    case Timeout => p.me.phase == Up && p.me.seen.Some?
    case Ignore => p.me.phase == Up && p.me.seen.Some?
    case Receive => p.me.phase == Up && p.me.seen.Some? && p.toMe != []
    case Quit => p.me.phase == Up && p.me.seen.None?
    case HeartbeatRead => p.me.phase != Down && p.me.hbSeen.None?
    case HeartbeatOk => p.me.phase != Down && p.me.hbSeen.Some?
    case HeartbeatMissed =>
      p.me.phase != Down && p.me.hbSeen.Some? && (HeartbeatExpired(p.me) ==> p.peer.phase != Up)
  }

  function Step(p: Pair, a: Action): Pair
    requires Enabled(p, a)
  {
    match a
    case Start => Publish(p, DoStart(p.me))
    case ReadRole => p.(me := DoReadRole(p.me))
    case Timeout => Publish(p, DoTimeout(p.me))
    case Ignore => p.(me := DoIgnore(p.me))
    case Receive => Publish(p.(toMe := p.toMe[1..]), DoReceive(p.me, p.toMe[0], p.peer.ip))
    case Quit => Publish(p, DoQuit(p.me))
    case HeartbeatRead => p.(me := DoHeartbeatRead(p.me))
    case HeartbeatOk => p.(me := DoHeartbeatOk(p.me))
    case HeartbeatMissed => p.(me := DoHeartbeatMissed(p.me))
  }

  ghost predicate Moves(p: Pair, q: Pair) {
    exists a :: Enabled(p, a) && q == Step(p, a)
  }

  /** Either server takes a step. */
  ghost predicate Next(p: Pair, q: Pair) {
    Moves(p, q) || Moves(Flip(p), Flip(q))
  }

  ghost predicate Initial(p: Pair) {
    exists i, j :: i != j && p == Pair(Fresh(i), Fresh(j), [], [])
  }

  ghost predicate IsRun(run: seq<Pair>) {
    && |run| > 0
    && Initial(run[0])
    && forall i :: 0 <= i < |run| - 1 ==> Next(run[i], run[i + 1])
  }

  // ---------------------------------------------------------------------
  // The invariant
  // ---------------------------------------------------------------------

  predicate All(q: seq<Role>, r: Role) { forall i :: 0 <= i < |q| ==> q[i] == r }

  /**
    What a server that became PRIMARY_WITH_BACKUP has in flight to one that is
    still WHO_AM_I: its offer at position k, only WHO_AM_I before, and only
    PRIMARY_WITH_BACKUP behind.
  */
  predicate Offer(q: seq<Role>, k: int) {
    && 0 <= k < |q| && q[k] == PrimaryWithoutBackup
    && All(q[..k], WhoAmI)
    && All(q[k + 1..], PrimaryWithBackup)
  }

  /** A WHO_AM_I server that reads q never meets the inactive_quit jump. */
  predicate SafeForWho(q: seq<Role>) {
    forall i :: 0 <= i < |q| && Paired(q[i]) ==>
      exists j :: 0 <= j < i && q[j] == PrimaryWithoutBackup
  }

  predicate EndsWithQuit(q: seq<Role>) { q != [] ==> q[|q| - 1] == ActiveQuiter }

  predicate Local(s: Server) {
    && !s.jumped
    && (s.phase == Down ==> s == Fresh(s.ip))
    && (s.phase == Up ==> s.role != ActiveQuiter)
    && (s.seen.Some? ==> s.phase == Up)
    && (s.seen.Some? ==> s.seen.value == s.role || (s.role == PrimaryWithoutBackup && Paired(s.seen.value)))
    && (s.role == WhoAmI ==> s.hbSeen.None?)
  }

  /** `a` leads and `b` has not decided yet, or they have settled. */
  ghost predicate Leads(a: Server, b: Server, toA: seq<Role>, toB: seq<Role>) {
    && All(toA, WhoAmI)
    && (a.role == PrimaryWithoutBackup ==>
         && b.role == WhoAmI
         && All(toB, WhoAmI)
         && (toB != [] ==> a.ip > b.ip))
    && (a.role == PrimaryWithBackup ==>
         && a.mate == Some(b.ip)
         && (b.role == WhoAmI || b.role == BackupWithPrimary)
         && (b.role == WhoAmI ==> exists k :: Offer(toB, k) && (k > 0 ==> a.ip > b.ip))
         && (b.role == BackupWithPrimary ==> b.mate == Some(a.ip) && All(toB, PrimaryWithBackup)))
    && Primary(a.role)
  }

  ghost predicate BothUp(p: Pair) {
    && (p.me.seen.Some? ==> p.me.seen.value == p.me.role)
    && (p.peer.seen.Some? ==> p.peer.seen.value == p.peer.role)
    && (|| (p.me.role == WhoAmI && p.peer.role == WhoAmI && All(p.toMe, WhoAmI) && All(p.toPeer, WhoAmI))
        || Leads(p.me, p.peer, p.toMe, p.toPeer)
        || Leads(p.peer, p.me, p.toPeer, p.toMe))
  }

  /** `s` runs on after the other server quit; q is what it can still read. */
  predicate Survivor(s: Server, q: seq<Role>) {
    && EndsWithQuit(q)
    && (s.role == WhoAmI ==> SafeForWho(q))
    && (Paired(s.role) ==> q != [])
  }

  /** `s` is running and the other server did not start yet. */
  predicate Early(s: Server) {
    && !Paired(s.role) && s.hbSeen.None?
    && (s.seen.Some? ==> s.seen.value == s.role)
  }

  ghost predicate Invariant(p: Pair) {
    && p.me.ip != p.peer.ip
    && Local(p.me) && Local(p.peer)
    && (p.me.phase == Down || p.peer.phase == Down ==> p.toMe == [] && p.toPeer == [])
    && (p.me.phase == Up && p.peer.phase == Down ==> Early(p.me))
    && (p.peer.phase == Up && p.me.phase == Down ==> Early(p.peer))
    && (p.me.phase == Up && p.peer.phase == Up ==> BothUp(p))
    && (p.me.phase == Up && p.peer.phase == Stopped ==> Survivor(p.me, p.toMe))
    && (p.peer.phase == Up && p.me.phase == Stopped ==> Survivor(p.peer, p.toPeer))
  }

  lemma InvariantIsSymmetric(p: Pair)
    requires Invariant(p)
    ensures Invariant(Flip(p))
  {
  }

  lemma AllAppend(q: seq<Role>, r: Role)
    requires All(q, r)
    ensures All(q + [r], r)
  {
  }

  lemma OfferIsSafe(q: seq<Role>, k: int)
    requires Offer(q, k)
    ensures SafeForWho(q)
  {
    forall i | 0 <= i < k
      ensures q[i] == WhoAmI
    {
      assert q[i] == q[..k][i];
    }
  }

  lemma SafeAppendQuit(q: seq<Role>)
    requires SafeForWho(q)
    ensures SafeForWho(q + [ActiveQuiter])
  {
    var e := q + [ActiveQuiter];
    forall i | 0 <= i < |e| && Paired(e[i])
      ensures exists j :: 0 <= j < i && e[j] == PrimaryWithoutBackup
    {
      assert q[i] == e[i];
      var j :| 0 <= j < i && q[j] == PrimaryWithoutBackup;
      assert e[j] == PrimaryWithoutBackup;
    }
  }

  lemma SafeTail(q: seq<Role>)
    requires q != [] && SafeForWho(q) && q[0] != PrimaryWithoutBackup
    ensures SafeForWho(q[1..])
    ensures !Paired(q[0])
  {
    var t := q[1..];
    forall i | 0 <= i < |t| && Paired(t[i])
      ensures exists j :: 0 <= j < i && t[j] == PrimaryWithoutBackup
    {
      assert q[i + 1] == t[i];
      var j :| 0 <= j < i + 1 && q[j] == PrimaryWithoutBackup;
      assert t[j - 1] == PrimaryWithoutBackup;
    }
  }

  lemma OfferExtend(q: seq<Role>, k: int)
    requires Offer(q, k)
    ensures Offer(q + [PrimaryWithBackup], k)
  {
    var e := q + [PrimaryWithBackup];
    assert e[..k] == q[..k];
    assert e[k + 1..] == q[k + 1..] + [PrimaryWithBackup];
  }

  lemma OfferTail(q: seq<Role>, k: int)
    requires Offer(q, k) && k > 0
    ensures q[0] == WhoAmI && Offer(q[1..], k - 1)
  {
    var t := q[1..];
    assert q[0] == q[..k][0];
    assert t[..k - 1] == q[..k][1..];
    assert t[k..] == q[k + 1..];
  }

  /** A broadcast received while both servers are running. */
  lemma ReceiveBothUp(p: Pair)
    requires Invariant(p) && Enabled(p, Action.Receive) && p.peer.phase == Up
    ensures Invariant(Step(p, Action.Receive))
  {
    var q := Step(p, Action.Receive);
    var head, rest := p.toMe[0], p.toMe[1..];
    if p.me.role == WhoAmI && p.peer.role == WhoAmI && All(p.toMe, WhoAmI) && All(p.toPeer, WhoAmI) {
      assert head == WhoAmI;
    } else if Leads(p.me, p.peer, p.toMe, p.toPeer) {
      assert head == WhoAmI;
      if p.me.role == PrimaryWithoutBackup {
        var k := |p.toPeer|;
        assert q.toPeer == p.toPeer + [PrimaryWithoutBackup];
        assert q.toPeer[..k] == p.toPeer;
        assert q.toPeer[k + 1..] == [];
        assert Offer(q.toPeer, k);
      } else {
        assert q.toPeer == p.toPeer + [PrimaryWithBackup];
        if p.peer.role == WhoAmI {
          var k :| Offer(p.toPeer, k) && (k > 0 ==> p.me.ip > p.peer.ip);
          OfferExtend(p.toPeer, k);
        } else {
          AllAppend(p.toPeer, PrimaryWithBackup);
        }
      }
      assert Leads(q.me, q.peer, q.toMe, q.toPeer);
    } else {
      assert Leads(p.peer, p.me, p.toPeer, p.toMe);
      if p.peer.role == PrimaryWithoutBackup {
        assert head == WhoAmI && p.peer.ip > p.me.ip;
      } else if p.me.role == WhoAmI {
        var k :| Offer(p.toMe, k) && (k > 0 ==> p.peer.ip > p.me.ip);
        if k > 0 { OfferTail(p.toMe, k); }
      }
      assert Leads(q.peer, q.me, q.toPeer, q.toMe);
    }
  }

  /** The survivor reads what the other server left behind. */
  lemma ReceiveAlone(p: Pair)
    requires Invariant(p) && Enabled(p, Action.Receive) && p.peer.phase == Stopped
    ensures Invariant(Step(p, Action.Receive))
  {
    if p.me.role == WhoAmI && p.toMe[0] != PrimaryWithoutBackup {
      SafeTail(p.toMe);
    }
  }

  lemma QuitKeepsInvariant(p: Pair)
    requires Invariant(p) && Enabled(p, Action.Quit)
    ensures Invariant(Step(p, Action.Quit))
  {
    if p.peer.phase == Up {
      if p.peer.role == WhoAmI {
        if Leads(p.me, p.peer, p.toMe, p.toPeer) && p.me.role == PrimaryWithBackup {
          var k :| Offer(p.toPeer, k) && (k > 0 ==> p.me.ip > p.peer.ip);
          OfferIsSafe(p.toPeer, k);
        }
        SafeAppendQuit(p.toPeer);
      }
    }
  }

  lemma TimeoutKeepsInvariant(p: Pair)
    requires Invariant(p) && Enabled(p, Timeout)
    ensures Invariant(Step(p, Timeout))
  {
    if p.peer.phase == Up && p.me.role == WhoAmI {
      var q := Step(p, Timeout);
      AllAppend(p.toPeer, WhoAmI);
      if Leads(p.peer, p.me, p.toPeer, p.toMe) {
        assert Leads(q.peer, q.me, q.toPeer, q.toMe);
      }
    } else {
      assert p.toPeer + [] == p.toPeer;
    }
  }

  /** Every step of one server keeps the invariant. */
  lemma StepKeepsInvariant(p: Pair, a: Action)
    requires Invariant(p) && Enabled(p, a)
    ensures Invariant(Step(p, a))
  {
    match a
    case Receive =>
      if p.peer.phase == Up { ReceiveBothUp(p); } else { ReceiveAlone(p); }
    case Quit => QuitKeepsInvariant(p);
    case Timeout => TimeoutKeepsInvariant(p);
    case _ =>
  }

  lemma NextKeepsInvariant(p: Pair, q: Pair)
    requires Invariant(p) && Next(p, q)
    ensures Invariant(q)
  {
    if Moves(p, q) {
      var a :| Enabled(p, a) && q == Step(p, a);
      StepKeepsInvariant(p, a);
    } else {
      var a :| Enabled(Flip(p), a) && Flip(q) == Step(Flip(p), a);
      InvariantIsSymmetric(p);
      StepKeepsInvariant(Flip(p), a);
      InvariantIsSymmetric(Flip(q));
    }
  }

  lemma {:induction false} RunKeepsInvariant(run: seq<Pair>, n: nat)
    requires IsRun(run) && n < |run|
    ensures Invariant(run[n])
  {
    if n > 0 {
      RunKeepsInvariant(run, n - 1);
      NextKeepsInvariant(run[n - 1], run[n]);
    }
  }

  // ---------------------------------------------------------------------
  // Safety over whole runs
  // ---------------------------------------------------------------------

  /** Two running servers are never both primary, with or without a backup. */
  lemma NeverTwoPrimaries(run: seq<Pair>, n: nat)
    requires IsRun(run) && n < |run|
    ensures !(run[n].me.phase == Up && run[n].peer.phase == Up
              && Primary(run[n].me.role) && Primary(run[n].peer.role))
  {
    RunKeepsInvariant(run, n);
  }

  ghost predicate Settled(a: Server, b: Server) {
    && a.role == PrimaryWithBackup && a.mate == Some(b.ip)
    && b.role == BackupWithPrimary && b.mate == Some(a.ip)
  }

  /** Once both running servers left WHO_AM_I the roles are settled and the mates agree. */
  lemma DecidedMeansSettled(run: seq<Pair>, n: nat)
    requires IsRun(run) && n < |run|
    requires run[n].me.phase == Up && run[n].peer.phase == Up
    requires run[n].me.role != WhoAmI && run[n].peer.role != WhoAmI
    ensures Settled(run[n].me, run[n].peer) || Settled(run[n].peer, run[n].me)
  {
    RunKeepsInvariant(run, n);
  }

  /** The inactive_quit jump is never taken. */
  lemma NeverInactiveQuit(run: seq<Pair>, n: nat)
    requires IsRun(run) && n < |run|
    ensures !run[n].me.jumped && !run[n].peer.jumped
  {
    RunKeepsInvariant(run, n);
  }

  lemma PeerMoveKeepsMe(p: Pair, q: Pair)
    ensures Moves(Flip(p), Flip(q)) ==> q.me == p.me
  {
  }

  lemma NextKeepsDecided(p: Pair, q: Pair)
    requires Local(p.me) && Next(p, q)
    ensures p.me.role != WhoAmI ==> q.me.role != WhoAmI
  {
    PeerMoveKeepsMe(p, q);
  }

  lemma RunKeepsDecided(run: seq<Pair>, n: nat)
    requires IsRun(run) && n + 1 < |run|
    ensures run[n].me.role != WhoAmI ==> run[n + 1].me.role != WhoAmI
  {
    var p, q := run[n], run[n + 1];
    RunKeepsInvariant(run, n);
    NextKeepsDecided(p, q);
  }

  /** Along any run a server that has decided never falls back to WHO_AM_I. */
  lemma {:induction false} NeverUndecided(run: seq<Pair>, i: nat, j: nat)
    requires IsRun(run) && i <= j < |run|
    requires run[i].me.role != WhoAmI
    ensures run[j].me.role != WhoAmI
    decreases j
  {
    hide IsRun;
    if i < j {
      var k := j - 1;
      RunKeepsDecided(run, k);
      NeverUndecided(run, i, k);
    }
  }

  /** A backup takes over only when its primary is not running any more. */
  lemma TakeoverOnlyAfterLoss(run: seq<Pair>, n: nat)
    requires IsRun(run) && n + 1 < |run|
    requires run[n].me.phase == Up && run[n].me.role == BackupWithPrimary
    requires Primary(run[n + 1].me.role)
    ensures run[n].peer.phase == Stopped
  {
    var p, q := run[n], run[n + 1];
    RunKeepsInvariant(run, n);
    assert Next(p, q);
    PeerMoveKeepsMe(p, q);
    var a :| Enabled(p, a) && q == Step(p, a);
  }

  // ---------------------------------------------------------------------
  // What becomes of the survivor
  // ---------------------------------------------------------------------

  /**
    When the other server has quit and everything it sent was read, the survivor
    serves alone or is still undecided: no role that names a mate is left.
  */
  lemma DrainedSurvivor(run: seq<Pair>, n: nat)
    requires IsRun(run) && n < |run|
    requires run[n].me.phase == Up && run[n].peer.phase == Stopped && run[n].toMe == []
    ensures run[n].me.role == WhoAmI || run[n].me.role == PrimaryWithoutBackup
  {
    RunKeepsInvariant(run, n);
  }

  /**
    Rounds of the negotiate loop in which no broadcast of the other server arrives:
    for each a broadcast of another service, or none.
  */
  function QuietRounds(p: Pair, foreign: seq<bool>): Pair
    requires p.me.phase == Up && p.me.seen.None? && p.peer.phase != Up
    decreases |foreign|
  {
    if foreign == [] then p
    else
      var q := Step(p, Action.ReadRole);
      QuietRounds(Step(q, if foreign[0] then Ignore else Timeout), foreign[1..])
  }

  /** An undecided survivor promotes itself in the round after its last try, and not before. */
  lemma {:induction false} SurvivorServes(p: Pair, foreign: seq<bool>)
    requires p.me.phase == Up && p.me.seen.None? && p.peer.phase != Up && p.me.role == WhoAmI
    ensures QuietRounds(p, foreign).me.role ==
            if foreign != [] && p.me.count + |foreign| > NEGOTIATE_MAX_COUNT + 1 then PrimaryWithoutBackup else WhoAmI
    decreases |foreign|
  {
    if foreign != [] {
      var q := Step(p, Action.ReadRole);
      var r := Step(q, if foreign[0] then Ignore else Timeout);
      if r.me.role == WhoAmI {
        SurvivorServes(r, foreign[1..]);
      } else {
        StaysPrimary(r, foreign[1..]);
      }
    }
  }

  lemma {:induction false} StaysPrimary(p: Pair, foreign: seq<bool>)
    requires p.me.phase == Up && p.me.seen.None? && p.peer.phase != Up
    requires p.me.role == PrimaryWithoutBackup
    ensures QuietRounds(p, foreign).me.role == PrimaryWithoutBackup
    decreases |foreign|
  {
    if foreign != [] {
      StaysPrimary(Step(Step(p, Action.ReadRole), if foreign[0] then Ignore else Timeout), foreign[1..]);
    }
  }

  /** A round of the heartbeat loop: the role is read, and if it is a paired one, the heartbeat is answered or not. */
  function Beat(p: Pair, answered: bool): Pair
    requires p.me.phase == Up && p.me.hbSeen.None? && p.peer.phase != Up
  {
    var q := Step(p, HeartbeatRead);
    if q.me.hbSeen.None? then q else Step(q, if answered then HeartbeatOk else HeartbeatMissed)
  }

  function Beats(p: Pair, answers: seq<bool>): Pair
    requires p.me.phase == Up && p.me.hbSeen.None? && p.peer.phase != Up
    decreases |answers|
  {
    if answers == [] then p else Beats(Beat(p, answers[0]), answers[1..])
  }

  predicate NoneAnswered(answers: seq<bool>) { forall i :: 0 <= i < |answers| ==> !answers[i] }

  /**
    A paired server that has lost the other one serves alone once the missed
    heartbeats are two more than the limit, and keeps its role before that.
  */
  lemma {:induction false} LossPromotes(p: Pair, answers: seq<bool>)
    requires p.me.phase == Up && p.me.hbSeen.None? && p.peer.phase != Up && Paired(p.me.role)
    requires NoneAnswered(answers)
    ensures Beats(p, answers).me.role ==
            if answers != [] && p.me.errCount + |answers| > MAX_HEARTBEAT_ERROR_COUNT + 1 then PrimaryWithoutBackup
            else p.me.role
    decreases |answers|
  {
    if answers != [] {
      var q := Beat(p, answers[0]);
      if Paired(q.me.role) {
        LossPromotes(q, answers[1..]);
      } else {
        BeatsAlone(q, answers[1..]);
      }
    }
  }

  /** Without a mate the heartbeat thread changes no role, and counts nothing. */
  lemma {:induction false} BeatsAlone(p: Pair, answers: seq<bool>)
    requires p.me.phase == Up && p.me.hbSeen.None? && p.peer.phase != Up && !Paired(p.me.role)
    ensures Beats(p, answers).me.role == p.me.role
    ensures answers != [] ==> Beats(p, answers).me.errCount == 0
    decreases |answers|
  {
    if answers != [] {
      var q := Beat(p, answers[0]);
      assert q.me.errCount == 0;
      BeatsAlone(q, answers[1..]);
    }
  }

  lemma Answered(p: Pair)
    requires p.me.phase == Up && p.me.hbSeen.None? && p.peer.phase != Up && Paired(p.me.role)
    ensures var q := Beat(p, true);
            q == p.(me := p.me.(errCount := 0))
  {
  }

  /** An answered heartbeat keeps the role, and the count begins again. */
  lemma AnswerRestarts(p: Pair, answers: seq<bool>)
    requires p.me.phase == Up && p.me.hbSeen.None? && p.peer.phase != Up && Paired(p.me.role)
    requires NoneAnswered(answers)
    ensures Beats(p, [true] + answers).me.role ==
            if |answers| > MAX_HEARTBEAT_ERROR_COUNT + 1 then PrimaryWithoutBackup else p.me.role
  {
    var q, all := Beat(p, true), [true] + answers;
    Answered(p);
    hide Step, Beat;
    assert all[1..] == answers;
    assert Beats(p, all) == Beats(q, answers);
    hide Beats;
    LossPromotes(q, answers);
  }

  /** In every run: whoever is left of a pair serves alone after that many missed heartbeats. */
  lemma RunLossPromotes(run: seq<Pair>, n: nat, answers: seq<bool>)
    requires IsRun(run) && n < |run|
    requires run[n].me.phase == Up && run[n].me.hbSeen.None? && run[n].peer.phase == Stopped
    requires NoneAnswered(answers) && |answers| > MAX_HEARTBEAT_ERROR_COUNT + 1
    ensures run[n].me.role != WhoAmI ==> Beats(run[n], answers).me.role == PrimaryWithoutBackup
  {
    RunKeepsInvariant(run, n);
    if Paired(run[n].me.role) {
      LossPromotes(run[n], answers);
    } else {
      BeatsAlone(run[n], answers);
    }
  }

  /** An undecided server asks at the start and after each receive timeout, and no other round sends anything. */
  lemma AsksAgain(p: Pair)
    requires p.peer.phase == Up
    ensures Enabled(p, Action.Start) ==> Step(p, Action.Start).toPeer == p.toPeer + [WhoAmI]
    ensures Enabled(p, Timeout) && p.me.seen == Some(WhoAmI) && p.me.role == WhoAmI ==>
      Step(p, Timeout).toPeer == p.toPeer + [WhoAmI]
    ensures Enabled(p, Timeout) && p.me.seen != Some(WhoAmI) ==> Step(p, Timeout) == p.(me := p.me.(seen := None))
    ensures Enabled(p, Ignore) ==> Step(p, Ignore).toPeer == p.toPeer
    ensures Enabled(p, Action.Quit) ==> Step(p, Action.Quit).toPeer == p.toPeer + [ActiveQuiter]
  {
  }

  /** A third server of the service that asks while there is a pair is answered, and gives up. */
  lemma ThirdServerGivesUp(s: Server, third: Server)
    requires s.seen == Some(s.role) && Paired(s.role) && third.seen == Some(WhoAmI)
    ensures var (t, answer) := DoReceive(s, WhoAmI, third.ip);
            && answer == [s.role] && t == s.(seen := None)
            && var (u, silence) := DoReceive(third, answer[0], s.ip);
               u.phase == Stopped && u.jumped && silence == []
  {
  }

  /** A quit frees the mate's place. */
  lemma QuitFreesMate(p: Pair)
    requires Invariant(p) && Enabled(p, Action.Receive) && Paired(p.me.role) && p.toMe[0] == ActiveQuiter
    requires Paired(p.me.seen.value)
    ensures var q := Step(p, Action.Receive); q.me.role == PrimaryWithoutBackup && q.me.mate == None
  {
  }

  // ---------------------------------------------------------------------
  // The objects themselves
  // ---------------------------------------------------------------------

  /** A step of the first or the second server. */
  datatype Move = Move(second: bool, action: Action)

  predicate MayMove(p: Pair, m: Move) { Enabled(if m.second then Flip(p) else p, m.action) }

  function Moved(p: Pair, m: Move): Pair {
    if !MayMove(p, m) then p
    else if m.second then Flip(Step(Flip(p), m.action))
    else Step(p, m.action)
  }

  /** A schedule: moves that are not enabled when their turn comes are passed over. */
  function Follow(p: Pair, moves: seq<Move>): Pair
    decreases |moves|
  {
    if moves == [] then p else Follow(Moved(p, moves[0]), moves[1..])
  }

  function Off(i: int, j: int): Pair { Pair(Fresh(i), Fresh(j), [], []) }

  /** Schedules give exactly runs: here, every schedule is a run. */
  lemma {:induction false} FollowIsRun(i: int, j: int, run: seq<Pair>, moves: seq<Move>)
    requires i != j && IsRun(run) && run[0] == Off(i, j)
    ensures exists all :: IsRun(all) && all[0] == Off(i, j) && all[|all| - 1] == Follow(run[|run| - 1], moves)
    decreases |moves|
  {
    if moves != [] {
      var p := run[|run| - 1];
      var q := Moved(p, moves[0]);
      if MayMove(p, moves[0]) {
        MoveIsNext(p, moves[0]);
        var more := run + [q];
        forall k | 0 <= k < |more| - 1 ensures Next(more[k], more[k + 1]) {
          assert more[k] == run[k];
          if k < |run| - 1 { assert more[k + 1] == run[k + 1]; }
        }
        hide Next, Initial, Moved;
        FollowIsRun(i, j, more, moves[1..]);
      } else {
        FollowIsRun(i, j, run, moves[1..]);
      }
    }
  }

  lemma MoveIsNext(p: Pair, m: Move)
    requires MayMove(p, m)
    ensures Next(p, Moved(p, m))
  {
    if m.second {
      assert Flip(Moved(p, m)) == Step(Flip(p), m.action);
    }
  }

  /** One step of an object, with the queues at its ends. */
  method Turn(me: Node, peer: Node, toMe: seq<Role>, toPeer: seq<Role>, a: Action)
    returns (toMe': seq<Role>, toPeer': seq<Role>)
    requires me != peer && Enabled(Pair(me.View(), peer.View(), toMe, toPeer), a)
    modifies me
    ensures Pair(me.View(), peer.View(), toMe', toPeer') == Step(old(Pair(me.View(), peer.View(), toMe, toPeer)), a)
  {
    hide DoReceive, DoTimeout;
    toMe' := toMe;
    var sent := [];
    match a {
      case Start => sent := me.Start();
      case ReadRole => me.ReadRole();
      case Timeout => sent := me.ReceiveTimeout();
      case Ignore => me.ReceiveForeign();
      case Receive =>
        toMe' := toMe[1..];
        sent := me.Receive(toMe[0], peer.ip);
      case Quit => sent := me.Quit();
      case HeartbeatRead => me.HeartbeatRead();
      case HeartbeatOk => me.HeartbeatOk();
      case HeartbeatMissed => me.HeartbeatMissed();
    }
    toPeer' := if peer.phase == Up then toPeer + sent else toPeer;
  }

  /**
    Two server objects and two queues under any schedule.  They are never both
    primary, and neither takes the jump.
  */
  method Drive(i: int, j: int, moves: seq<Move>) returns (a: Node, b: Node, toA: seq<Role>, toB: seq<Role>)
    requires i != j
    ensures Pair(a.View(), b.View(), toA, toB) == Follow(Off(i, j), moves)
    ensures Invariant(Pair(a.View(), b.View(), toA, toB))
    ensures !(a.phase == Up && b.phase == Up && Primary(a.iAm) && Primary(b.iAm))
    ensures !a.jumped && !b.jumped
  {
    a := new Node(i);
    b := new Node(j);
    toA, toB := [], [];
    var n := 0;
    assert moves[0..] == moves;
    hide Enabled, Step, BothUp, Survivor, Early;
    while n < |moves|
      invariant n <= |moves| && a != b && fresh(a) && fresh(b)
      invariant Invariant(Pair(a.View(), b.View(), toA, toB))
      invariant Follow(Pair(a.View(), b.View(), toA, toB), moves[n..]) == Follow(Off(i, j), moves)
    {
      hide Invariant;
      var m := moves[n];
      ghost var p := Pair(a.View(), b.View(), toA, toB);
      assert moves[n..][0] == m && moves[n..][1..] == moves[n + 1..];
      MovedKeepsInvariant(p, m);
      if m.second {
        if Enabled(Pair(b.View(), a.View(), toB, toA), m.action) {
          toB, toA := Turn(b, a, toB, toA, m.action);
        }
      } else {
        if Enabled(Pair(a.View(), b.View(), toA, toB), m.action) {
          toA, toB := Turn(a, b, toA, toB, m.action);
        }
      }
      assert Pair(a.View(), b.View(), toA, toB) == Moved(p, m);
      n := n + 1;
    }
    InvariantIsSafe(Pair(a.View(), b.View(), toA, toB));
  }

  lemma MovedKeepsInvariant(p: Pair, m: Move)
    requires Invariant(p)
    ensures Invariant(Moved(p, m))
  {
    if MayMove(p, m) {
      MoveIsNext(p, m);
      NextKeepsInvariant(p, Moved(p, m));
    }
  }

  lemma InvariantIsSafe(p: Pair)
    requires Invariant(p)
    ensures !(p.me.phase == Up && p.peer.phase == Up && Primary(p.me.role) && Primary(p.peer.role))
    ensures !p.me.jumped && !p.peer.jumped
  {
  }

  // ---------------------------------------------------------------------
  // Two running servers agree
  // ---------------------------------------------------------------------

  /** A round of the negotiate loop in which a message is read, or none arrives. */
  function Round(second: bool, a: Action): (ms: seq<Move>)
    ensures |ms| == 2
  {
    [Move(second, Action.ReadRole), Move(second, a)]
  }

  function Rounded(p: Pair, second: bool, a: Action): Pair {
    Moved(Moved(p, Move(second, Action.ReadRole)), Move(second, a))
  }

  lemma FollowRound(p: Pair, second: bool, a: Action, moves: seq<Move>)
    ensures Follow(p, Round(second, a) + moves) == Follow(Rounded(p, second, a), moves)
  {
    var all := Round(second, a) + moves;
    hide Moved;
    assert all[1..][0] == Move(second, a) && all[1..][1..] == moves;
  }

  /** The second server reads n messages. */
  function Draining(n: nat, moves: seq<Move>): (ms: seq<Move>)
    ensures |ms| == 2 * n + |moves|
  {
    if n == 0 then moves else Round(true, Action.Receive) + Draining(n - 1, moves)
  }

  /** The second server asks, the first reads, both once more, and the second reads the offer. */
  function Agreeing(): (ms: seq<Move>)
    ensures |ms| == 10
  {
    Round(true, Timeout) + (Round(false, Action.Receive) + (Round(true, Timeout) +
      (Round(false, Action.Receive) + (Round(true, Action.Receive) + []))))
  }

  /** Undecided at the top of the negotiate loop, with two tries left. */
  predicate Undecided(s: Server) {
    s.phase == Up && s.role == WhoAmI && s.seen.None? && s.count + 2 <= NEGOTIATE_MAX_COUNT
  }

  /** Both undecided, the first with the higher address. */
  predicate Facing(p: Pair) {
    && Undecided(p.me) && Undecided(p.peer) && p.me.ip > p.peer.ip
    && All(p.toMe, WhoAmI) && All(p.toPeer, WhoAmI)
  }

  /** Reading what an undecided first server sent does not change an undecided second server of lower address. */
  lemma {:induction false} Drains(p: Pair, n: nat, moves: seq<Move>)
    requires Undecided(p.peer) && n <= |p.toPeer| && (n > 0 ==> p.me.ip > p.peer.ip)
    requires All(p.toPeer[..n], WhoAmI)
    ensures Follow(p, Draining(n, moves)) == Follow(p.(toPeer := p.toPeer[n..]), moves)
    decreases n
  {
    if n > 0 {
      var q := p.(toPeer := p.toPeer[1..]);
      assert p.toPeer[..n][0] == p.toPeer[0];
      assert q.toPeer[..n - 1] == p.toPeer[..n][1..];
      assert q.toPeer[n - 1..] == p.toPeer[n..];
      assert Rounded(p, true, Action.Receive) == q;
      FollowRound(p, true, Action.Receive, Draining(n - 1, moves));
      hide Moved, Follow;
      Drains(q, n - 1, moves);
      assert q.(toPeer := q.toPeer[n - 1..]) == p.(toPeer := p.toPeer[n..]);
    } else {
      assert p.(toPeer := p.toPeer[0..]) == p;
    }
  }

  lemma AllTail(q: seq<Role>, r: Role)
    requires All(q, r) && q != []
    ensures q[0] == r && All(q[1..], r)
  {
  }

  /** A quiet round of the second server asks the first. */
  lemma Asks(p: Pair)
    requires p.peer.phase == Up && p.peer.role == WhoAmI && p.peer.seen.None? && p.peer.count <= NEGOTIATE_MAX_COUNT
    requires p.me.phase == Up
    ensures Rounded(p, true, Timeout) == p.(peer := p.peer.(count := p.peer.count + 1), toMe := p.toMe + [WhoAmI])
  {
  }

  /** The first server becomes primary, and then offers to serve with a backup. */
  lemma Answers(p: Pair)
    requires p.me.phase == Up && p.me.seen.None? && p.peer.phase == Up && p.toMe != [] && p.toMe[0] == WhoAmI
    requires p.me.role == WhoAmI ==> p.me.count <= NEGOTIATE_MAX_COUNT && p.me.ip > p.peer.ip
    ensures p.me.role == WhoAmI ==>
      Rounded(p, false, Action.Receive) == p.(me := p.me.(role := PrimaryWithoutBackup), toMe := p.toMe[1..])
    ensures p.me.role == PrimaryWithoutBackup ==>
      Rounded(p, false, Action.Receive) ==
        p.(me := p.me.(role := PrimaryWithBackup, mate := Some(p.peer.ip)), toMe := p.toMe[1..],
           toPeer := p.toPeer + [PrimaryWithoutBackup])
  {
    assert p.toPeer + [] == p.toPeer;
  }

  lemma Accepts(p: Pair)
    requires p.peer.phase == Up && p.peer.role == WhoAmI && p.peer.seen.None? && p.peer.count <= NEGOTIATE_MAX_COUNT
    requires p.toPeer != [] && p.toPeer[0] == PrimaryWithoutBackup && p.me.phase == Up
    ensures Rounded(p, true, Action.Receive) ==
      p.(peer := p.peer.(role := BackupWithPrimary, mate := Some(p.me.ip)), toPeer := p.toPeer[1..])
  {
    assert p.toMe + [] == p.toMe;
  }

  lemma Agree(p: Pair)
    requires Facing(p) && p.toPeer == []
    ensures Settled(Follow(p, Agreeing()).me, Follow(p, Agreeing()).peer)
  {
    var r5 := Round(true, Action.Receive) + [];
    var r4 := Round(false, Action.Receive) + r5;
    var r3 := Round(true, Timeout) + r4;
    var r2 := Round(false, Action.Receive) + r3;
    FollowRound(p, true, Timeout, r2);
    Asks(p);
    var p1 := Rounded(p, true, Timeout);
    AllAppend(p.toMe, WhoAmI);
    AllTail(p1.toMe, WhoAmI);
    FollowRound(p1, false, Action.Receive, r3);
    Answers(p1);
    var p2 := Rounded(p1, false, Action.Receive);
    FollowRound(p2, true, Timeout, r4);
    Asks(p2);
    var p3 := Rounded(p2, true, Timeout);
    AllAppend(p2.toMe, WhoAmI);
    AllTail(p3.toMe, WhoAmI);
    FollowRound(p3, false, Action.Receive, r5);
    Answers(p3);
    var p4 := Rounded(p3, false, Action.Receive);
    FollowRound(p4, true, Action.Receive, []);
    assert p4.toPeer == [PrimaryWithoutBackup];
    Accepts(p4);
    hide Rounded;
    var p5 := Rounded(p4, true, Action.Receive);
    assert Follow(p5, []) == p5;
  }

  function Mirror(moves: seq<Move>): (ms: seq<Move>)
    ensures |ms| == |moves|
  {
    if moves == [] then [] else [Move(!moves[0].second, moves[0].action)] + Mirror(moves[1..])
  }

  lemma {:induction false} FollowMirror(p: Pair, moves: seq<Move>)
    ensures Follow(Flip(p), Mirror(moves)) == Flip(Follow(p, moves))
    decreases |moves|
  {
    if moves != [] {
      var m := moves[0];
      assert Moved(Flip(p), Move(!m.second, m.action)) == Flip(Moved(p, m)) by { assert Flip(Flip(p)) == p; }
      hide Moved;
      FollowMirror(Moved(p, m), moves[1..]);
    }
  }

  /** The one with the higher address serves and the other one stands by. */
  lemma Settles(p: Pair)
    requires Facing(p)
    ensures var q := Follow(p, Draining(|p.toPeer|, Agreeing())); Settled(q.me, q.peer)
  {
    assert p.toPeer[..|p.toPeer|] == p.toPeer && p.toPeer[|p.toPeer|..] == [];
    Drains(p, |p.toPeer|, Agreeing());
    Agree(p.(toPeer := []));
  }

  /** A primary that waits for a backup: the other one asks, is offered the place and takes it. */
  function Offering(): (ms: seq<Move>)
    ensures |ms| == 6
  {
    Round(true, Timeout) + (Round(false, Action.Receive) + (Round(true, Action.Receive) + []))
  }

  lemma OfferSettles(p: Pair)
    requires p.me.phase == Up && p.me.seen.None? && p.me.role == PrimaryWithoutBackup && Undecided(p.peer)
    requires All(p.toMe, WhoAmI) && p.toPeer == []
    ensures var q := Follow(p, Offering()); Settled(q.me, q.peer)
  {
    var r3 := Round(true, Action.Receive) + [];
    var r2 := Round(false, Action.Receive) + r3;
    FollowRound(p, true, Timeout, r2);
    Asks(p);
    var p1 := Rounded(p, true, Timeout);
    AllAppend(p.toMe, WhoAmI);
    AllTail(p1.toMe, WhoAmI);
    FollowRound(p1, false, Action.Receive, r3);
    Answers(p1);
    var p2 := Rounded(p1, false, Action.Receive);
    FollowRound(p2, true, Action.Receive, []);
    assert p2.toPeer[0] == PrimaryWithoutBackup;
    Accepts(p2);
    hide Rounded;
    var p3 := Rounded(p2, true, Action.Receive);
    assert Follow(p3, []) == p3;
  }

  /** At the top of both loops, with tries left where it matters. */
  predicate Ready(p: Pair) {
    && p.me.phase == Up && p.peer.phase == Up && p.me.seen.None? && p.peer.seen.None?
    && (p.me.role == WhoAmI ==> Undecided(p.me)) && (p.peer.role == WhoAmI ==> Undecided(p.peer))
  }

  /** From where the first server leads it ends as the primary of the second. */
  lemma LeaderSettles(p: Pair) returns (moves: seq<Move>)
    requires Ready(p) && Leads(p.me, p.peer, p.toMe, p.toPeer)
    ensures |moves| <= 2 * |p.toPeer| + 6
    ensures Settled(Follow(p, moves).me, Follow(p, moves).peer)
  {
    if p.me.role == PrimaryWithoutBackup {
      var n := |p.toPeer|;
      moves := Draining(n, Offering());
      assert p.toPeer[..n] == p.toPeer && p.toPeer[n..] == [];
      Drains(p, n, Offering());
      OfferSettles(p.(toPeer := []));
    } else if p.peer.role == WhoAmI {
      var k :| Offer(p.toPeer, k) && (k > 0 ==> p.me.ip > p.peer.ip);
      var last := Round(true, Action.Receive) + [];
      moves := Draining(k, last);
      Drains(p, k, last);
      var q := p.(toPeer := p.toPeer[k..]);
      FollowRound(q, true, Action.Receive, []);
      Accepts(q);
      hide Rounded;
      assert Follow(Rounded(q, true, Action.Receive), []) == Rounded(q, true, Action.Receive);
    } else {
      moves := [];
    }
  }

  /** A server that has read its role gets a broadcast of another service, and is at the top of its loop. */
  function Rest(p: Pair): (ms: seq<Move>)
    ensures |ms| <= 2
  {
    (if p.me.seen.Some? then [Move(false, Ignore)] else [])
    + (if p.peer.seen.Some? then [Move(true, Ignore)] else [])
  }

  predicate TriesLeft(s: Server) {
    s.role == WhoAmI ==> s.count + (if s.seen.Some? then 3 else 2) <= NEGOTIATE_MAX_COUNT
  }

  lemma {:induction false} FollowAppend(p: Pair, one: seq<Move>, two: seq<Move>)
    ensures Follow(p, one + two) == Follow(Follow(p, one), two)
    decreases |one|
  {
    hide Moved;
    if one == [] {
      assert one + two == two;
    } else {
      assert (one + two)[1..] == one[1..] + two;
      FollowAppend(Moved(p, one[0]), one[1..], two);
    }
  }

  lemma {:induction false} FollowKeepsInvariant(p: Pair, moves: seq<Move>)
    requires Invariant(p)
    ensures Invariant(Follow(p, moves))
    decreases |moves|
  {
    if moves != [] {
      MovedKeepsInvariant(p, moves[0]);
      hide Invariant, Moved;
      FollowKeepsInvariant(Moved(p, moves[0]), moves[1..]);
    }
  }

  lemma Rests(p: Pair)
    requires Invariant(p) && p.me.phase == Up && p.peer.phase == Up && TriesLeft(p.me) && TriesLeft(p.peer)
    ensures var q := Follow(p, Rest(p));
      && Ready(q) && Invariant(q) && q.toMe == p.toMe && q.toPeer == p.toPeer
      && q.me.role == p.me.role && q.peer.role == p.peer.role && q.me.ip == p.me.ip && q.peer.ip == p.peer.ip
  {
    FollowKeepsInvariant(p, Rest(p));
    hide Invariant;
    var one := if p.me.seen.Some? then [Move(false, Ignore)] else [];
    var two := if p.peer.seen.Some? then [Move(true, Ignore)] else [];
    FollowAppend(p, one, two);
    OneMove(p, Move(false, Ignore));
    OneMove(Follow(p, one), Move(true, Ignore));
  }

  lemma OneMove(p: Pair, m: Move)
    ensures Follow(p, [m]) == Moved(p, m) && Follow(p, []) == p
  {
    assert [m][1..] == [];
  }

  /** A schedule that ends with one server the primary and the other its backup. */
  ghost predicate SettledBy(p: Pair, moves: seq<Move>, first: bool) {
    var q := Follow(p, moves);
    if first then Settled(q.me, q.peer) else Settled(q.peer, q.me)
  }

  lemma MirrorSettles(p: Pair, moves: seq<Move>)
    requires SettledBy(Flip(p), moves, true)
    ensures SettledBy(p, Mirror(moves), false)
  {
    FollowMirror(Flip(p), moves);
    assert Flip(Flip(p)) == p;
  }

  lemma ReadySettles(p: Pair) returns (moves: seq<Move>, first: bool)
    requires Invariant(p) && Ready(p)
    ensures |moves| <= 2 * (|p.toMe| + |p.toPeer|) + 10 && SettledBy(p, moves, first)
    ensures first == if Primary(p.me.role) || Primary(p.peer.role) then Primary(p.me.role) else p.me.ip > p.peer.ip
  {
    assert BothUp(p);
    if p.me.role == WhoAmI && p.peer.role == WhoAmI {
      assert All(p.toMe, WhoAmI) && All(p.toPeer, WhoAmI) && p.me.ip != p.peer.ip;
      hide Invariant;
      first := p.me.ip > p.peer.ip;
      if first {
        moves := Draining(|p.toPeer|, Agreeing());
        Settles(p);
      } else {
        moves := Draining(|p.toMe|, Agreeing());
        Settles(Flip(p));
        MirrorSettles(p, moves);
        moves := Mirror(moves);
      }
    } else if Leads(p.me, p.peer, p.toMe, p.toPeer) {
      first := true;
      moves := LeaderSettles(p);
    } else {
      first := false;
      assert Leads(p.peer, p.me, p.toPeer, p.toMe);
      moves := LeaderSettles(Flip(p));
      MirrorSettles(p, moves);
      moves := Mirror(moves);
    }
  }

  /**
    Two running servers with tries left can settle within a number of steps that
    is bounded by the messages in flight.  One that leads stays the primary; if
    none does, the higher address decides.
  */
  lemma RunningSettle(p: Pair)
    requires Invariant(p) && p.me.phase == Up && p.peer.phase == Up && TriesLeft(p.me) && TriesLeft(p.peer)
    ensures exists moves ::
      && |moves| <= 2 * (|p.toMe| + |p.toPeer|) + 12
      && SettledBy(p, moves, if Primary(p.me.role) || Primary(p.peer.role) then Primary(p.me.role)
                             else p.me.ip > p.peer.ip)
  {
    Rests(p);
    var rest := Rest(p);
    var q := Follow(p, rest);
    hide Invariant, Ready, Follow;
    var moves, first := ReadySettles(q);
    FollowAppend(p, rest, moves);
    assert SettledBy(p, rest + moves, first);
  }
}
