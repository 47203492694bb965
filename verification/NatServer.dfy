/**
  The NAT simulator of talk/base/natserver.cc with the four kinds of NAT of
  talk/base/nattypes.cc (section 5 of RFC 3489).

  The source keeps routes in a map and addresses in sets whose comparators
  depend on the kind of NAT.  `RouteCmpOrders` and `AddrCmpOrders` say that the
  comparators are orders and which values they identify, so the containers are
  modelled by what they identify.  The history of packets sent from inside is
  part of the state, and `Forwards` is decided by it alone.
*/
module NatServer {
  import opened Prelude

  datatype NatType = OpenCone | AddrRestricted | PortRestricted | Symmetric

  predicate IsSymmetric(t: NatType) { t == Symmetric }

  predicate FiltersIp(t: NatType) { t != OpenCone }

  predicate FiltersPort(t: NatType) { t == PortRestricted || t == Symmetric }

  const PORTS: nat := 65536

  type port = n: nat | n < 65536

  datatype Addr = Addr(ip: nat, port: port)

  datatype Route = Route(source: Addr, destination: Addr)

  // ---------------------------------------------------------------------
  // The comparators
  // ---------------------------------------------------------------------

  predicate AddrLess(a: Addr, b: Addr) {
    if a.ip < b.ip then true
    else if b.ip < a.ip then false
    else a.port < b.port
  }

  predicate RouteCmp(t: NatType, r1: Route, r2: Route) {
    if AddrLess(r1.source, r2.source) then true
    else if AddrLess(r2.source, r1.source) then false
    else if IsSymmetric(t) && AddrLess(r1.destination, r2.destination) then true
    else if IsSymmetric(t) && AddrLess(r2.destination, r1.destination) then false
    else false
  }

  predicate AddrCmp(t: NatType, a1: Addr, a2: Addr) {
    if FiltersIp(t) && a1.ip < a2.ip then true
    else if FiltersIp(t) && a2.ip < a1.ip then false
    else if FiltersPort(t) && a1.port < a2.port then true
    else if FiltersPort(t) && a2.port < a1.port then false
    else false
  }

  /** What the internal map distinguishes. */
  datatype RouteKey = RouteKey(source: Addr, destination: Option<Addr>)

  function KeyOf(t: NatType, r: Route): RouteKey {
    RouteKey(r.source, if IsSymmetric(t) then Some(r.destination) else None)
  }

  /** What a whitelist distinguishes. */
  datatype FilterKey = FilterKey(ip: Option<nat>, port: Option<port>)

  function FilterOf(t: NatType, a: Addr): FilterKey {
    FilterKey(if FiltersIp(t) then Some(a.ip) else None, if FiltersPort(t) then Some(a.port) else None)
  }

  /** RouteCmp is a strict weak order that identifies exactly the routes with equal keys. */
  lemma RouteCmpOrders(t: NatType, r1: Route, r2: Route, r3: Route)
    ensures !RouteCmp(t, r1, r1)
    ensures RouteCmp(t, r1, r2) && RouteCmp(t, r2, r3) ==> RouteCmp(t, r1, r3)
    ensures !RouteCmp(t, r1, r2) && !RouteCmp(t, r2, r1) <==> KeyOf(t, r1) == KeyOf(t, r2)
  {
  }

  /** AddrCmp is a strict weak order that identifies exactly the addresses the NAT does not tell apart. */
  lemma AddrCmpOrders(t: NatType, a1: Addr, a2: Addr, a3: Addr)
    ensures !AddrCmp(t, a1, a1)
    ensures AddrCmp(t, a1, a2) && AddrCmp(t, a2, a3) ==> AddrCmp(t, a1, a3)
    ensures !AddrCmp(t, a1, a2) && !AddrCmp(t, a2, a1) <==> FilterOf(t, a1) == FilterOf(t, a2)
  {
  }

  // ---------------------------------------------------------------------
  // The server
  // ---------------------------------------------------------------------

  class TransEntry {
    const t: NatType
    const route: Route
    const local: Addr           // where its socket is bound
    var whitelist: set<Addr>    // no two members are equal for AddrCmp

    constructor (t: NatType, route: Route, local: Addr)
      ensures this.t == t && this.route == route && this.local == local && whitelist == {}
    {
      this.t, this.route, this.local, whitelist := t, route, local, {};
    }

    /** Whether find would find the address in the whitelist. */
    predicate Admits(a: Addr)
      reads this
    {
      exists w :: w in whitelist && !AddrCmp(t, w, a) && !AddrCmp(t, a, w)
    }

    /** A set does not take a second member that equals one it has. */
    method Insert(a: Addr)
      modifies this
      ensures forall b :: Admits(b) <==> old(Admits(b)) || FilterOf(t, a) == FilterOf(t, b)
      ensures forall w :: w in whitelist ==> w in old(whitelist) || w == a
    {
      forall w, b
        ensures (!AddrCmp(t, w, b) && !AddrCmp(t, b, w)) <==> FilterOf(t, w) == FilterOf(t, b)
      {
        AddrCmpOrders(t, w, b, b);
      }
      if !Admits(a) {
        whitelist := whitelist + {a};
        assert a in whitelist;
      }
    }
  }

  /** Some packet of the mapping k went to an address the NAT does not tell from a. */
  ghost predicate SentTo(t: NatType, sent: seq<Route>, k: RouteKey, a: Addr) {
    exists i :: 0 <= i < |sent| && KeyOf(t, sent[i]) == k
                && FilterOf(t, sent[i].destination) == FilterOf(t, a)
  }

  lemma SentToNext(t: NatType, sent: seq<Route>, r: Route, k: RouteKey, a: Addr)
    ensures SentTo(t, sent + [r], k, a) <==>
            SentTo(t, sent, k, a) || (KeyOf(t, r) == k && FilterOf(t, r.destination) == FilterOf(t, a))
  {
    var all := sent + [r];
    if SentTo(t, sent, k, a) {
      var i :| 0 <= i < |sent| && KeyOf(t, sent[i]) == k && FilterOf(t, sent[i].destination) == FilterOf(t, a);
      assert all[i] == sent[i];
    }
    assert all[|sent|] == r;
  }

  /**
    Where the search for a port ends.  NoPort stands for the exit(1) of the
    source.  Binding to port 0 succeeds, but then the system chooses the port, and
    the maps would not name the address the socket has.
  */
  datatype Found = At(local: Addr) | ToZero | NoPort

  /** p is free, and all ports from start up to it, cyclically, are taken. */
  ghost predicate FirstFree(ip: nat, start: port, p: port, busy: set<Addr>) {
    && Addr(ip, p) !in busy
    && forall q: port :: Distance(start, q) < Distance(start, p) ==> Addr(ip, q) in busy
  }

  /** The first free port, unless that is port 0 or there is none. */
  ghost predicate SearchResult(ip: nat, start: port, busy: set<Addr>, found: Found) {
    && (found.At? ==> found.local.ip == ip && found.local.port != 0 && FirstFree(ip, start, found.local.port, busy))
    && (found.ToZero? <==> FirstFree(ip, start, 0, busy))
    && (found.NoPort? <==> forall p: port :: Addr(ip, p) in busy)
  }

  lemma CandidateFirst(ip: nat, start: port, i: nat, busy: set<Addr>)
    requires i < PORTS && Addr(ip, Candidate(start, i)) !in busy
    requires forall j :: 0 <= j < i ==> Addr(ip, Candidate(start, j)) in busy
    ensures FirstFree(ip, start, Candidate(start, i), busy)
    ensures forall p: port :: FirstFree(ip, start, p, busy) ==> p == Candidate(start, i)
  {
    CandidateDistance(start, i);
    forall q: port | Distance(start, q) < i ensures Addr(ip, q) in busy { CandidateReaches(start, q); }
    forall p: port | FirstFree(ip, start, p, busy) ensures p == Candidate(start, i) {
      CandidateReaches(start, p);
      hide Candidate, Distance;
    }
  }

  /** The search comes to port 0 exactly if it can be bound and all ports from the source's own up are taken. */
  lemma ZeroIff(ip: nat, start: port, busy: set<Addr>)
    ensures SearchResult(ip, start, busy, ToZero) <==>
            Addr(ip, 0) !in busy && forall p: port :: start != 0 && start <= p ==> Addr(ip, p) in busy
  {
  }

  class Server {
    const t: NatType
    const externalIp: nat
    var intMap: map<RouteKey, TransEntry>
    var extMap: map<Addr, TransEntry>
    ghost var sent: seq<Route>   // the packets that came from inside and were sent on

    /** The two maps hold the same entries, one to one. */
    ghost predicate OneToOne()
      reads this
    {
      && (forall k :: k in intMap ==>
            && KeyOf(t, intMap[k].route) == k && intMap[k].t == t && intMap[k].local.ip == externalIp
            && intMap[k].local in extMap && extMap[intMap[k].local] == intMap[k])
      && (forall a :: a in extMap ==>
            && extMap[a].local == a && a.port != 0
            && KeyOf(t, extMap[a].route) in intMap && intMap[KeyOf(t, extMap[a].route)] == extMap[a])
    }

    ghost predicate Whitelists()
      reads this, set k | k in intMap :: intMap[k]
    {
      forall k, a :: k in intMap ==> (intMap[k].Admits(a) <==> SentTo(t, sent, k, a))
    }

    ghost predicate History()
      reads this
    {
      && (forall i :: 0 <= i < |sent| ==> KeyOf(t, sent[i]) in intMap)
      && (forall k :: k in intMap ==> exists i :: 0 <= i < |sent| && sent[i] == intMap[k].route)
    }

    ghost predicate Valid()
      reads this, set k | k in intMap :: intMap[k]
    {
      OneToOne() && Whitelists() && History()
    }

    constructor (t: NatType, externalIp: nat)
      ensures Valid() && this.t == t && this.externalIp == externalIp && sent == [] && extMap == map[]
    {
      this.t, this.externalIp := t, externalIp;
      intMap, extMap, sent := map[], map[], [];
    }

    /**
      The cyclic search for a port, from the source's own.  `inUse` are the
      addresses for which Bind answers EADDRINUSE.
    */
    method FindPort(route: Route, inUse: set<Addr>) returns (found: Found)
      ensures SearchResult(externalIp, route.source.port, extMap.Keys + inUse, found)
    {
      var start := route.source.port;
      ghost var busy := extMap.Keys + inUse;
      var i := 0;
      while i < PORTS
        invariant 0 <= i <= PORTS
        invariant forall j :: 0 <= j < i ==> Addr(externalIp, Candidate(start, j)) in busy
      {
        var extAddr := Addr(externalIp, Candidate(start, i));
        if extAddr !in extMap {
          if extAddr !in inUse {
            CandidateFirst(externalIp, start, i, busy);
            return if extAddr.port == 0 then ToZero else At(extAddr);
          }
        }
        i := i + 1;
      }
      forall p: port ensures Addr(externalIp, p) in busy { CandidateReaches(start, p); }
      found := NoPort;
    }

    method Translate(route: Route, inUse: set<Addr>) returns (entry: TransEntry?, found: Found)
      requires Valid() && KeyOf(t, route) !in intMap
      modifies this`intMap, this`extMap
      ensures SearchResult(externalIp, route.source.port, old(extMap.Keys) + inUse, found)
      ensures entry == null <==> !found.At?
      ensures entry == null ==> intMap == old(intMap) && extMap == old(extMap)
      ensures entry != null ==> fresh(entry) && entry.t == t && entry.route == route && entry.whitelist == {}
      ensures entry != null ==> entry.local == found.local && entry.local !in old(extMap) && entry.local.port != 0
      ensures entry != null ==> intMap == old(intMap)[KeyOf(t, route) := entry]
      ensures entry != null ==> extMap == old(extMap)[entry.local := entry]
      ensures OneToOne()
    {
      found := FindPort(route, inUse);
      if !found.At? {
        return null, found;
      }
      entry := new TransEntry(t, route, found.local);
      intMap := intMap[KeyOf(t, route) := entry];
      extMap := extMap[found.local := entry];
    }

    /** A packet from inside: the external address it leaves from, or why there is none. */
    method OnInternalPacket(source: Addr, destination: Addr, inUse: set<Addr>) returns (from: Found)
      requires Valid()
      modifies this, set k | k in intMap :: intMap[k]
      ensures Valid()
      ensures from.At? ==> sent == old(sent) + [Route(source, destination)]
      ensures from.At? ==> KeyOf(t, Route(source, destination)) in intMap
      ensures from.At? ==> from == At(External(Route(source, destination)))
      ensures KeyOf(t, Route(source, destination)) in old(intMap) ==> from.At? && extMap == old(extMap)
      ensures KeyOf(t, Route(source, destination)) !in old(intMap) ==>
        SearchResult(externalIp, source.port, old(extMap.Keys) + inUse, from)
      ensures forall a :: a in old(extMap) ==> a in extMap && extMap[a] == old(extMap)[a]
      ensures !from.At? ==> sent == old(sent) && extMap == old(extMap)
    {
      var route := Route(source, destination);
      var found := Establish(route, inUse);
      hide OneToOne, Whitelists, History;
      if !found.At? {
        return found;
      }
      Record(route);
      from := At(intMap[KeyOf(t, route)].local);
    }

    /** Looks the route up and, the first time, makes an entry for it. */
    method Establish(route: Route, inUse: set<Addr>) returns (found: Found)
      requires Valid()
      modifies this`intMap, this`extMap
      ensures OneToOne() && Whitelists() && (found.At? <==> KeyOf(t, route) in intMap)
      ensures found.At? ==> Known(route)
      ensures forall k :: k in intMap ==> intMap[k] in old(intMap).Values || fresh(intMap[k])
      ensures KeyOf(t, route) in old(intMap) ==> extMap == old(extMap)
      ensures KeyOf(t, route) !in old(intMap) ==>
        SearchResult(externalIp, route.source.port, old(extMap.Keys) + inUse, found)
      ensures found.At? ==> found.local == intMap[KeyOf(t, route)].local
      ensures forall a :: a in old(extMap) ==> a in extMap && extMap[a] == old(extMap)[a]
      ensures !found.At? ==> Valid() && extMap == old(extMap)
    {
      if KeyOf(t, route) !in intMap {
        var entry;
        entry, found := Translate(route, inUse);
      } else {
        found := At(intMap[KeyOf(t, route)].local);
      }
    }

    /** The entries are those of the packets sent so far and of this route. */
    ghost predicate Known(route: Route)
      reads this, set k | k in intMap :: intMap[k]
    {
      && (forall i :: 0 <= i < |sent| ==> KeyOf(t, sent[i]) in intMap)
      && (forall k :: k in intMap ==> intMap[k].route == route || intMap[k].route in sent)
    }

    /** Lets the destination answer, and sends the packet on. */
    method Record(route: Route)
      requires OneToOne() && KeyOf(t, route) in intMap && Known(route) && Whitelists()
      modifies this`sent, intMap[KeyOf(t, route)]
      ensures Valid() && sent == old(sent) + [route]
    {
      var key := KeyOf(t, route);
      label before:
      intMap[key].Insert(route.destination);
      sent := sent + [route];
      forall k, a | k in intMap
        ensures intMap[k].Admits(a) <==> SentTo(t, sent, k, a)
      {
        SentToNext(t, old(sent), route, k, a);
        assert k != key ==> intMap[k] != intMap[key];
        assert old@before(intMap[k].Admits(a)) <==> SentTo(t, old(sent), k, a);
      }
      assert sent[|sent| - 1] == route;
      forall k | k in intMap
        ensures exists i :: 0 <= i < |sent| && sent[i] == intMap[k].route
      {
        if intMap[k].route in old(sent) {
          var i :| 0 <= i < |old(sent)| && old(sent)[i] == intMap[k].route;
          assert sent[i] == intMap[k].route;
        }
      }
    }

    ghost function External(r: Route): Addr
      requires KeyOf(t, r) in intMap
      reads this
    {
      intMap[KeyOf(t, r)].local
    }

    /** A packet from outside: the internal host it is forwarded to, if any. */
    method OnExternalPacket(local: Addr, remote: Addr) returns (to: Option<Addr>)
      requires Valid() && local in extMap
      ensures to.Some? <==> Forwards(local, remote)
      ensures to.Some? ==> to.value == extMap[local].route.source
    {
      var entry := extMap[local];
      if Filter(entry, remote) {
        return None;
      }
      to := Some(entry.route.source);
    }

    predicate Filter(entry: TransEntry, a: Addr)
      reads entry
    {
      !entry.Admits(a)
    }

    ghost predicate Forwards(local: Addr, remote: Addr)
      requires local in extMap
      reads this
    {
      SentTo(t, sent, KeyOf(t, extMap[local].route), remote)
    }

    // -------------------------------------------------------------------
    // What the history says
    // -------------------------------------------------------------------

    /** Two packets leave from one external address exactly when the NAT identifies their routes. */
    lemma ExternalIffKey(i: nat, j: nat)
      requires Valid() && i < |sent| && j < |sent|
      ensures External(sent[i]) == External(sent[j]) <==> KeyOf(t, sent[i]) == KeyOf(t, sent[j])
    {
    }

    /** A cone NAT maps every source to one external address, and no two sources to the same. */
    lemma ConeMapping(i: nat, j: nat)
      requires Valid() && t != Symmetric && i < |sent| && j < |sent|
      ensures External(sent[i]) == External(sent[j]) <==> sent[i].source == sent[j].source
    {
    }

    /** A symmetric NAT maps every pair of source and destination to its own. */
    lemma SymmetricMapping(i: nat, j: nat)
      requires Valid() && t == Symmetric && i < |sent| && j < |sent|
      ensures External(sent[i]) == External(sent[j]) <==> sent[i] == sent[j]
    {
    }

    /** Full cone: any external host may send to a mapped address. */
    lemma FullCone(local: Addr, remote: Addr)
      requires Valid() && t == OpenCone && local in extMap
      ensures Forwards(local, remote)
    {
    }

    /** Restricted cone: only hosts the internal host has sent to. */
    lemma RestrictedCone(local: Addr, remote: Addr)
      requires Valid() && t == AddrRestricted && local in extMap
      ensures Forwards(local, remote) <==>
              exists i :: 0 <= i < |sent| && sent[i].source == extMap[local].route.source
                          && sent[i].destination.ip == remote.ip
    {
    }

    /** Port restricted cone: only the addresses and ports it has sent to. */
    lemma PortRestrictedCone(local: Addr, remote: Addr)
      requires Valid() && t == PortRestricted && local in extMap
      ensures Forwards(local, remote) <==> Route(extMap[local].route.source, remote) in sent
    {
    }

    /** Symmetric: only the host the mapping was made for. */
    lemma SymmetricFilter(local: Addr, remote: Addr)
      requires Valid() && t == Symmetric && local in extMap
      ensures Forwards(local, remote) <==> remote == extMap[local].route.destination
    {
    }
  }

  // ---------------------------------------------------------------------
  // The order in which ports are tried
  // ---------------------------------------------------------------------

  function Candidate(start: port, i: nat): port { (start + i) % PORTS }

  /** How many steps after `start` the port p is tried. */
  function Distance(start: port, p: port): nat {
    if p >= start then p - start else p + PORTS - start
  }

  /** Ports are tried one after the other, from start on, and 0 behind 65535. */
  lemma Successive(start: port, i: nat)
    ensures Candidate(start, 0) == start
    ensures Candidate(start, i + 1) == if Candidate(start, i) == 65535 then 0 else Candidate(start, i) + 1
  {
  }

  /** The first free port is the one at which the search, in this order, first meets a free address. */
  lemma FirstFreeIs(ip: nat, start: port, p: port, busy: set<Addr>, i: nat)
    requires i < PORTS && Candidate(start, i) == p
    ensures FirstFree(ip, start, p, busy) <==>
            Addr(ip, p) !in busy && forall j: nat :: j < i ==> Addr(ip, Candidate(start, j)) in busy
  {
    CandidateDistance(start, i);
    if FirstFree(ip, start, p, busy) {
      forall j: nat | j < i ensures Addr(ip, Candidate(start, j)) in busy { CandidateDistance(start, j); }
    }
    if Addr(ip, p) !in busy && forall j: nat :: j < i ==> Addr(ip, Candidate(start, j)) in busy {
      CandidateFirst(ip, start, i, busy);
    }
  }

  lemma CandidateReaches(start: port, p: port)
    ensures Distance(start, p) < PORTS && Candidate(start, Distance(start, p)) == p
  {
  }

  lemma CandidateDistance(start: port, i: nat)
    requires i < PORTS
    ensures Distance(start, Candidate(start, i)) == i
  {
  }
}
