/**
  The reference ring of talk/base/linked_ptr.h: all smart pointers to one
  object are linked in a ring, and the last one deletes the object.

  Each pointer belongs to a ghost `Ring`, which lists the pointers in the order
  of their links.  `Program` runs copies, assignments and destructions of any
  number of pointers; its invariant says that the pointers to an object are
  exactly one ring, and that an object is deleted once, when none is left.
*/
module LinkedPtr {
  import opened Prelude

  /** An object on the heap, and how often it has been deleted. */
  class Target {
    ghost var deletions: nat

    constructor ()
      ensures deletions == 0
    {
      deletions := 0;
    }

    /** Deleting an object twice is an error. */
    method Delete()
      requires deletions == 0
      modifies this
      ensures deletions == 1
    {
      deletions := deletions + 1;
    }
  }

  function Succ(i: nat, n: nat): nat { if i + 1 == n then 0 else i + 1 }

  ghost function Elements(s: seq<LinkedPtr>): set<LinkedPtr> { set p | p in s }

  lemma ElementsGrow(s: seq<LinkedPtr>, p: LinkedPtr)
    ensures Elements(s + [p]) == Elements(s) + {p}
  {
  }

  ghost predicate Distinct(s: seq<LinkedPtr>) { forall i, j :: 0 <= i < j < |s| ==> s[i] != s[j] }

  /** The links of each pointer lead to its neighbours in the sequence, cyclically. */
  ghost predicate Chained(s: seq<LinkedPtr>)
    reads s
  {
    forall i :: 0 <= i < |s| ==>
      s[i].prev != null && s[i].next == s[Succ(i, |s|)] && s[Succ(i, |s|)].prev == s[i]
  }

  /** A ring may be listed from any of its pointers on. */
  lemma Rotate(s: seq<LinkedPtr>, k: nat)
    requires Chained(s) && Distinct(s) && k <= |s|
    ensures Chained(s[k..] + s[..k]) && Distinct(s[k..] + s[..k])
  {
  }

  /** All of them belong to the ring and point to the object. */
  ghost predicate Belong(s: seq<LinkedPtr>, ring: Ring, target: Target?)
    reads s
  {
    forall i :: 0 <= i < |s| ==> s[i].ring == ring && s[i].ptr == target
  }

  class Ring {
    ghost var nodes: seq<LinkedPtr>
    ghost const target: Target?

    ghost constructor (p: LinkedPtr, target: Target?)
      ensures nodes == [p] && this.target == target
    {
      nodes := [p];
      this.target := target;
    }

    ghost predicate Valid()
      reads this, nodes
    {
      nodes != [] && Distinct(nodes) && Chained(nodes) && Belong(nodes, this, target)
    }

    /** Lists the ring with p at its end. */
    ghost method EndWith(p: LinkedPtr)
      requires Valid() && p in nodes
      modifies this`nodes
      ensures Valid() && nodes[|nodes| - 1] == p && |nodes| == |old(nodes)|
      ensures Elements(nodes) == Elements(old(nodes))
    {
      var k :| 0 <= k < |nodes| && nodes[k] == p;
      Rotate(nodes, k + 1);
      nodes := nodes[k + 1..] + nodes[..k + 1];
      hide Chained, Distinct;
    }
  }

  class LinkedPtr {
    var ptr: Target?
    var prev: LinkedPtr?
    var next: LinkedPtr?
    ghost var ring: Ring?

    ghost predicate Valid()
      reads this, ring, if ring == null then {} else Elements(ring.nodes)
    {
      ring != null && ring.Valid() && this in ring.nodes
    }

    twostate lemma Untouched()
      requires old(Valid()) && ring == old(ring) && ring.nodes == old(ring.nodes) && unchanged(ring)
      requires forall i :: 0 <= i < |ring.nodes| ==> unchanged(ring.nodes[i])
      ensures Valid()
    {
    }

    constructor (p: Target?)
      ensures Valid() && fresh(ring) && ring.nodes == [this] && ptr == p && ring.target == p
    {
      ptr := p;
      prev, next := this, this;
      new;
      ring := new Ring(this, p);
    }

    constructor Copy(r: LinkedPtr, ghost live: set<LinkedPtr>)
      requires Rings(live) && OneRing(live) && r in live
      modifies r`next, r.next`prev, r.ring
      ensures Rings(live + {this}) && OneRing(live + {this}) && ptr == r.ptr && ring == old(r.ring)
    {
      new;
      AcquireIn(r, live);
    }

    method Unique() returns (unique: bool)
      requires Valid()
      ensures unique <==> |ring.nodes| == 1
    {
      assert prev != null && (prev == this <==> |ring.nodes| == 1) by { OwnLinks(); }
      unique := if prev != null then prev == this else true;
    }

    lemma OwnLinks()
      requires Valid()
      ensures prev != null && next != null && prev in ring.nodes && next in ring.nodes
      ensures prev == this <==> |ring.nodes| == 1
    {
      var k :| 0 <= k < |ring.nodes| && ring.nodes[k] == this;
      var j := if k == 0 then |ring.nodes| - 1 else k - 1;
      assert ring.nodes[j].next == this && ring.nodes[Succ(j, |ring.nodes|)] == this;
    }

    /** This is one more pointer in the ring of r. */
    ghost predicate Joined(r: LinkedPtr, joined: Ring?, nodes: seq<LinkedPtr>)
      reads this, ring, if ring == null then {} else Elements(ring.nodes)
    {
      && Valid() && ring == joined && r in ring.nodes && |ring.nodes| == |nodes| + 1
      && Elements(ring.nodes) == Elements(nodes) + {this}
    }

    /** Links this behind the last pointer in s. */
    method Link(r: LinkedPtr, ghost s: seq<LinkedPtr>)
      requires s != [] && s[|s| - 1] == r && Chained(s) && Distinct(s) && this !in s
      modifies this`next, this`prev, r`next, r.next`prev
      ensures Chained(s + [this]) && Distinct(s + [this])
    {
      assert r.next == s[0] && s[Succ(|s| - 1, |s|)] == s[0];
      next := r.next;
      next.prev := this;
      prev := r;
      r.next := this;
      ghost var t := s + [this];
      forall i | 0 <= i < |t|
        ensures t[i].prev != null && t[i].next == t[Succ(i, |t|)] && t[Succ(i, |t|)].prev == t[i]
      {
        if i < |s| - 1 {
          assert s[Succ(i, |s|)] == s[i + 1];
          assert s[0] != s[i + 1];
        }
      }
    }

    /** Enters the ring of r, behind r. */
    method Acquire(r: LinkedPtr)
      requires r.Valid() && this !in r.ring.nodes
      modifies this, r`next, r.next`prev, r.ring
      ensures Joined(r, old(r.ring), old(r.ring.nodes))
    {
      hide Chained, Distinct;
      r.ring.EndWith(r);
      assert this !in Elements(r.ring.nodes);
      Insert(r);
    }

    method Insert(r: LinkedPtr)
      requires r.Valid() && this !in r.ring.nodes && r.ring.nodes[|r.ring.nodes| - 1] == r
      modifies this, r`next, r.next`prev, r.ring
      ensures Joined(r, old(r.ring), old(r.ring.nodes))
    {
      hide Chained, Distinct, Elements;
      ghost var s := r.ring.nodes;
      ptr := r.ptr;
      ring := r.ring;
      Link(r, s);
      ring.nodes := s + [this];
      assert Belong(ring.nodes, ring, ring.target);
      ElementsGrow(s, this);
    }

    /** Takes this out of a ring that has others. */
    method Unlink(ghost s: seq<LinkedPtr>)
      requires prev != null && next != null
      requires |s| > 1 && s[|s| - 1] == this && Chained(s) && Distinct(s)
      modifies this`next, this`prev, prev`next, next`prev
      ensures Chained(s[..|s| - 1]) && Distinct(s[..|s| - 1]) && this !in s[..|s| - 1]
      ensures old(prev) != this && old(prev).next == old(next)
    {
      ghost var n := |s| - 1;
      assert s[n - 1].next == this && s[Succ(n - 1, |s|)] == this;
      assert next == s[0] && s[Succ(n, |s|)] == s[0];
      prev.next := next;
      next.prev := prev;
      prev, next := null, null;
      ghost var t := s[..n];
      forall i | 0 <= i < |t|
        ensures t[i].prev != null && t[i].next == t[Succ(i, |t|)] && t[Succ(i, |t|)].prev == t[i]
      {
        if i < n - 1 {
          assert s[Succ(i, |s|)] == s[i + 1];
          assert s[0] != s[i + 1] && s[i] != s[n - 1];
        }
      }
    }

    /** Leaves the ring; the last pointer deletes the object. */
    method Release()
      requires Valid() && (ptr != null ==> ptr.deletions == 0)
      modifies this, prev`next, next`prev, ring, ptr
      ensures ring == null && ptr == null
      ensures old(prev) != this ==> old(prev).next == old(next)
      ensures old(ptr) != null ==> old(ptr).deletions == if |old(ring.nodes)| == 1 then 1 else 0
      ensures |old(ring.nodes)| > 1 ==>
                old(ring).Valid() && Elements(old(ring).nodes) == old(Elements(ring.nodes)) - {this}
    {
      var unique := Unique();
      if unique {
        if ptr != null { ptr.Delete(); }
        ring := null;
      } else {
        Leave();
      }
      ptr := null;
    }

    /** The others are a ring still. */
    method Leave()
      requires Valid() && |ring.nodes| > 1
      modifies this, prev`next, next`prev, ring
      ensures ring == null && ptr == old(ptr) && this !in old(ring).nodes
      ensures old(prev) != this && old(prev).next == old(next)
      ensures old(ring).Valid() && Elements(old(ring).nodes) == old(Elements(ring.nodes)) - {this}
    {
      ring.EndWith(this);
      ghost var s, r := ring.nodes, ring;
      Unlink(s);
      hide Chained, Distinct;
      ghost var t := s[..|s| - 1];
      assert s == t + [this];
      ring.nodes := t;
      ring := null;
      assert Belong(t, r, r.target);
    }

    /** The pointers in live, and then this, form rings, one for each object. */
    method AcquireIn(r: LinkedPtr, ghost live: set<LinkedPtr>)
      requires Rings(live) && OneRing(live) && r in live && this !in live
      modifies this, r`next, r.next`prev, r.ring
      ensures Rings(live + {this}) && OneRing(live + {this}) && ptr == r.ptr && ring == old(r.ring)
    {
      ghost var joined := r.ring;
      OthersApart(r, live);
      hide Chained, Distinct, Belong;
      label before:
      Acquire(r);
      forall q | q in live + {this} ensures q.Valid() && Elements(q.ring.nodes) <= live + {this} {
        if q.ring == joined {
          assert q in Elements(joined.nodes);
        } else {
          q.Untouched@before();
        }
      }
      SameObject(this, r);
    }

    /** The object is deleted if no other pointer refers to it. */
    method Destroy(ghost live: set<LinkedPtr>)
      requires Rings(live) && OneRing(live) && this in live
      requires ptr != null ==> ptr.deletions == 0
      modifies this, prev`next, next`prev, ring, ptr
      ensures Rings(live - {this}) && OneRing(live - {this})
      ensures old(prev) != this ==> old(prev).next == old(next)
      ensures old(ptr) != null ==>
                old(ptr).deletions == if Referenced(live - {this}, old(ptr)) then 0 else 1
    {
      ghost var left := ring;
      OthersApart(this, live);
      SameTarget(this, live);
      hide Chained, Distinct, Belong;
      label before:
      Release();
      forall q | q in live - {this} ensures q.Valid() && Elements(q.ring.nodes) <= live - {this} {
        if q.ring == left {
          assert q in Elements(left.nodes);
        } else {
          q.Untouched@before();
        }
      }
    }

    /** operator=: the old object may be deleted, but not if r refers to it. */
    method Assign(r: LinkedPtr, ghost live: set<LinkedPtr>)
      requires Rings(live) && OneRing(live) && this in live && r in live
      requires ptr != null ==> ptr.deletions == 0
      modifies this, prev`next, next`prev, ring, ptr, r`next, r`prev, r.next`prev, r.ring
      ensures Rings(live) && OneRing(live) && ptr == old(r.ptr) && ring == old(r.ring)
      ensures old(ptr) != null ==>
                old(ptr).deletions == if Referenced(live, old(ptr)) then 0 else 1
    {
      hide Chained, Distinct, Belong, Rings, OneRing, Elements;
      if this != r {
        Destroy(live);
        AcquireIn(r, live - {this});
        assert live - {this} + {this} == live;
      }
    }
  }

  // ---------------------------------------------------------------------
  // Many pointers
  // ---------------------------------------------------------------------

  /** Every pointer is in a ring, and rings hold no other pointers. */
  ghost predicate Rings(live: set<LinkedPtr>)
    reads *
  {
    forall p :: p in live ==> p.Valid() && Elements(p.ring.nodes) <= live
  }

  /** All pointers to an object are in the same ring. */
  ghost predicate OneRing(live: set<LinkedPtr>)
    reads live
  {
    forall p, q :: p in live && q in live && p.ptr != null && p.ptr == q.ptr ==> p.ring == q.ring
  }

  lemma SameObject(p: LinkedPtr, q: LinkedPtr)
    requires p.Valid() && q.Valid() && p.ring == q.ring
    ensures p.ptr == q.ptr
  {
  }

  /** The neighbours of p are in no other ring. */
  lemma OthersApart(p: LinkedPtr, live: set<LinkedPtr>)
    requires Rings(live) && p in live
    ensures p.prev != null && p.next != null
    ensures forall q, i :: q in live && q.ring != p.ring && 0 <= i < |q.ring.nodes| ==>
              q.ring.nodes[i] != p && q.ring.nodes[i] != p.prev && q.ring.nodes[i] != p.next
    ensures forall q :: q in live && q.ring == p.ring ==> q in Elements(p.ring.nodes)
    ensures forall q :: q in live && q.ring != p.ring ==> p !in Elements(q.ring.nodes)
  {
    p.OwnLinks();
    hide Chained, Distinct;
  }

  /** The others in the ring, if any, point to the same object, and nobody else does. */
  lemma SameTarget(p: LinkedPtr, live: set<LinkedPtr>)
    requires Rings(live) && OneRing(live) && p in live
    ensures |p.ring.nodes| == 1 ==> forall q :: q in live && q.ring == p.ring ==> q == p
    ensures |p.ring.nodes| == 1 && p.ptr != null ==> forall q :: q in live - {p} ==> q.ptr != p.ptr
    ensures |p.ring.nodes| > 1 ==> exists q :: q in live - {p} && q.ptr == p.ptr
  {
    hide Chained;
    var nodes := p.ring.nodes;
    if |nodes| == 1 {
      assert nodes == [p];
    } else {
      var q := if nodes[0] == p then nodes[1] else nodes[0];
      assert q in Elements(nodes) && q != p;
    }
  }

  // ---------------------------------------------------------------------
  // Whole runs
  // ---------------------------------------------------------------------

  ghost predicate Referenced(live: set<LinkedPtr>, o: Target)
    reads live
  {
    exists p :: p in live && p.ptr == o
  }

  /** An object is deleted once when no pointer refers to it any more, and not before. */
  ghost predicate Counted(live: set<LinkedPtr>, objects: set<Target>)
    reads live, objects
  {
    && (forall p :: p in live && p.ptr != null ==> p.ptr in objects)
    && (forall o :: o in objects ==> o.deletions == if Referenced(live, o) then 0 else 1)
  }

  ghost predicate Inv(live: set<LinkedPtr>, objects: set<Target>)
    reads *
  {
    Rings(live) && OneRing(live) && Counted(live, objects)
  }

  method MakeStep(o: Target?, ghost live: set<LinkedPtr>, ghost objects: set<Target>) returns (p: LinkedPtr)
    requires Inv(live, objects) && (o != null ==> o !in objects && o.deletions == 0)
    ensures fresh(p) && fresh(p.ring) && p.ptr == o
    ensures Inv(live + {p}, if o == null then objects else objects + {o})
  {
    hide Chained, Distinct, Belong;
    p := new LinkedPtr(o);
  }

  method CopyStep(r: LinkedPtr, ghost live: set<LinkedPtr>, ghost objects: set<Target>) returns (p: LinkedPtr)
    requires Inv(live, objects) && r in live
    modifies r`next, r.next`prev, r.ring
    ensures fresh(p) && p.ptr == r.ptr && p.ring == old(r.ring) && Inv(live + {p}, objects)
  {
    hide Rings, OneRing;
    p := new LinkedPtr.Copy(r, live);
  }

  method AssignStep(p: LinkedPtr, r: LinkedPtr, ghost live: set<LinkedPtr>, ghost objects: set<Target>)
    requires Inv(live, objects) && p in live && r in live
    modifies p, p.prev`next, p.next`prev, p.ring, p.ptr, r`next, r`prev, r.next`prev, r.ring
    ensures p.ptr == old(r.ptr) && p.ring == old(r.ring) && Inv(live, objects)
  {
    hide Rings, OneRing;
    p.Assign(r, live);
  }

  method DropStep(p: LinkedPtr, ghost live: set<LinkedPtr>, ghost objects: set<Target>)
    requires Inv(live, objects) && p in live
    modifies p, p.prev`next, p.next`prev, p.ring, p.ptr
    ensures Inv(live - {p}, objects)
  {
    hide Rings, OneRing;
    ghost var was := p.ptr;
    p.Destroy(live);
    forall o | o in objects ensures o.deletions == if Referenced(live - {p}, o) then 0 else 1 {
      if o != was && old(Referenced(live, o)) {
        var q :| q in live && old(q.ptr) == o;
        assert q in live - {p};
      }
    }
  }

  /** What a program does with its pointers; each has an index, which Drop takes away. */
  datatype Command = Make | MakeNull | Copy(i: nat) | Assign(i: nat, j: nat) | Drop(i: nat)

  /** The object each pointer refers to, by number, and how many objects have been made. */
  datatype View = View(refs: seq<Option<nat>>, made: nat)

  function After(v: View, c: Command): View {
    var n := |v.refs|;
    match c
    case Make => View(v.refs + [Some(v.made)], v.made + 1)
    case MakeNull => View(v.refs + [None], v.made)
    case Copy(i) => if i < n then v.(refs := v.refs + [v.refs[i]]) else v
    case Assign(i, j) => if i < n && j < n then v.(refs := v.refs[i := v.refs[j]]) else v
    case Drop(i) => if i < n then v.(refs := v.refs[..i] + v.refs[i + 1..]) else v
  }

  function AfterAll(cs: seq<Command>): View {
    if cs == [] then View([], 0) else After(AfterAll(cs[..|cs| - 1]), cs[|cs| - 1])
  }

  ghost function Objects(objs: seq<Target>): set<Target> { set o | o in objs }

  /** The pointers vars refer to the objects the view says. */
  ghost predicate Shows(vars: seq<LinkedPtr>, objs: seq<Target>, v: View)
    reads vars
  {
    && |v.refs| == |vars| && v.made == |objs|
    && (forall i, j :: 0 <= i < j < |objs| ==> objs[i] != objs[j])
    && (forall i :: 0 <= i < |vars| ==>
          if v.refs[i].None? then vars[i].ptr == null
          else v.refs[i].value < |objs| && vars[i].ptr == objs[v.refs[i].value])
  }

  ghost predicate Good(vars: seq<LinkedPtr>, objs: seq<Target>, v: View)
    reads *
  {
    Distinct(vars) && Inv(Elements(vars), Objects(objs)) && Shows(vars, objs, v)
  }

  /** The pointers, their rings and the objects. */
  ghost function Heap(vars: seq<LinkedPtr>, objs: seq<Target>): set<object?>
    reads vars
  {
    Elements(vars) + Objects(objs) + set p | p in vars :: p.ring
  }

  lemma NeighboursLive(p: LinkedPtr, live: set<LinkedPtr>)
    requires Rings(live) && p in live
    ensures p.prev != null && p.next != null && p.prev in live && p.next in live
  {
    p.OwnLinks();
    hide Chained, Distinct, Belong;
    assert p.prev in Elements(p.ring.nodes) && p.next in Elements(p.ring.nodes);
  }

  method RunMake(vars: seq<LinkedPtr>, ghost objs: seq<Target>, ghost v: View)
    returns (vars': seq<LinkedPtr>, ghost objs': seq<Target>)
    requires Good(vars, objs, v)
    modifies Heap(vars, objs)
    ensures Good(vars', objs', After(v, Make))
    ensures fresh(Heap(vars', objs') - old(Heap(vars, objs)))
  {
    hide Rings, OneRing, Counted;
    var o := new Target();
    var p := MakeStep(o, Elements(vars), Objects(objs));
    vars', objs' := vars + [p], objs + [o];
    ElementsGrow(vars, p);
    assert Objects(objs') == Objects(objs) + {o};
  }

  method RunMakeNull(vars: seq<LinkedPtr>, ghost objs: seq<Target>, ghost v: View)
    returns (vars': seq<LinkedPtr>)
    requires Good(vars, objs, v)
    modifies Heap(vars, objs)
    ensures Good(vars', objs, After(v, MakeNull))
    ensures fresh(Heap(vars', objs) - old(Heap(vars, objs)))
  {
    hide Rings, OneRing, Counted;
    var p := MakeStep(null, Elements(vars), Objects(objs));
    vars' := vars + [p];
    ElementsGrow(vars, p);
  }

  method RunCopy(i: nat, vars: seq<LinkedPtr>, ghost objs: seq<Target>, ghost v: View)
    returns (vars': seq<LinkedPtr>)
    requires Good(vars, objs, v) && i < |vars|
    modifies Heap(vars, objs)
    ensures Good(vars', objs, After(v, Copy(i)))
    ensures fresh(Heap(vars', objs) - old(Heap(vars, objs)))
  {
    hide Rings, OneRing, Counted;
    NeighboursLive(vars[i], Elements(vars));
    var p := CopyStep(vars[i], Elements(vars), Objects(objs));
    vars' := vars + [p];
    ElementsGrow(vars, p);
  }

  method RunAssign(i: nat, j: nat, vars: seq<LinkedPtr>, ghost objs: seq<Target>, ghost v: View)
    requires Good(vars, objs, v) && i < |vars| && j < |vars|
    modifies Heap(vars, objs)
    ensures Good(vars, objs, After(v, Assign(i, j)))
    ensures fresh(Heap(vars, objs) - old(Heap(vars, objs)))
  {
    hide Rings, OneRing, Counted;
    NeighboursLive(vars[i], Elements(vars));
    NeighboursLive(vars[j], Elements(vars));
    AssignStep(vars[i], vars[j], Elements(vars), Objects(objs));
  }

  method RunDrop(i: nat, vars: seq<LinkedPtr>, ghost objs: seq<Target>, ghost v: View)
    returns (vars': seq<LinkedPtr>)
    requires Good(vars, objs, v) && i < |vars|
    modifies Heap(vars, objs)
    ensures Good(vars', objs, After(v, Drop(i)))
    ensures fresh(Heap(vars', objs) - old(Heap(vars, objs)))
  {
    hide Rings, OneRing, Counted;
    NeighboursLive(vars[i], Elements(vars));
    DropStep(vars[i], Elements(vars), Objects(objs));
    vars' := vars[..i] + vars[i + 1..];
    ElementsDrop(vars, i);
  }

  lemma ElementsDrop(s: seq<LinkedPtr>, i: nat)
    requires i < |s| && Distinct(s)
    ensures Elements(s[..i] + s[i + 1..]) == Elements(s) - {s[i]} && Distinct(s[..i] + s[i + 1..])
  {
  }

  method Step(c: Command, vars: seq<LinkedPtr>, ghost objs: seq<Target>, ghost v: View)
    returns (vars': seq<LinkedPtr>, ghost objs': seq<Target>)
    requires Good(vars, objs, v)
    modifies Heap(vars, objs)
    ensures Good(vars', objs', After(v, c))
    ensures fresh(Heap(vars', objs') - old(Heap(vars, objs)))
  {
    hide Inv;
    vars', objs' := vars, objs;
    match c
    case Make => vars', objs' := RunMake(vars, objs, v);
    case MakeNull => vars' := RunMakeNull(vars, objs, v);
    case Copy(i) => if i < |vars| { vars' := RunCopy(i, vars, objs, v); }
    case Assign(i, j) => if i < |vars| && j < |vars| { RunAssign(i, j, vars, objs, v); }
    case Drop(i) => if i < |vars| { vars' := RunDrop(i, vars, objs, v); }
  }

  /** Any program that uses pointers only in these ways. */
  method Run(cs: seq<Command>) returns (vars: seq<LinkedPtr>, ghost objs: seq<Target>)
    ensures Good(vars, objs, AfterAll(cs))
  {
    vars, objs := [], [];
    for i := 0 to |cs|
      invariant Good(vars, objs, AfterAll(cs[..i])) && fresh(Heap(vars, objs))
    {
      vars, objs := Step(cs[i], vars, objs, AfterAll(cs[..i]));
      hide Good, Heap, After;
      assert cs[..i + 1][..i] == cs[..i];
    }
    assert cs[..|cs|] == cs;
  }

  /** An object has been deleted, and then once, exactly if no pointer refers to it. */
  lemma DeletedOnce(vars: seq<LinkedPtr>, objs: seq<Target>, v: View, k: nat)
    requires Good(vars, objs, v) && k < v.made
    ensures objs[k].deletions == if Some(k) in v.refs then 0 else 1
  {
  }

  /** The pointers to one object are one ring. */
  lemma RingIff(vars: seq<LinkedPtr>, objs: seq<Target>, v: View, i: nat, j: nat)
    requires Good(vars, objs, v) && i < |vars| && j < |vars| && v.refs[i] != None
    ensures vars[j].ring == vars[i].ring <==> v.refs[j] == v.refs[i]
    ensures vars[i].Valid() && (vars[j] in vars[i].ring.nodes <==> v.refs[j] == v.refs[i])
  {
  }

  /** unique() tells whether there is another pointer to the object. */
  lemma UniqueIff(vars: seq<LinkedPtr>, objs: seq<Target>, v: View, i: nat)
    requires Good(vars, objs, v) && i < |vars| && v.refs[i] != None
    ensures |vars[i].ring.nodes| == 1 <==> forall j :: 0 <= j < |vars| && j != i ==> v.refs[j] != v.refs[i]
  {
    hide Chained, Counted, Belong;
    var p, live := vars[i], Elements(vars);
    assert p in live;
    SameTarget(p, live);
    if |p.ring.nodes| == 1 {
      forall j | 0 <= j < |vars| && j != i ensures v.refs[j] != v.refs[i] {
        assert vars[j] in live && vars[j] != p;
      }
    } else {
      assert p.ring.nodes != [];
      var q :| q in live - {p} && q.ptr == p.ptr;
      var j :| 0 <= j < |vars| && vars[j] == q;
      assert v.refs[j] == v.refs[i];
    }
  }

  /** Nothing refers again to an object that was deleted. */
  lemma {:induction false} GoneForGood(cs: seq<Command>, more: seq<Command>, k: nat)
    requires k < AfterAll(cs).made && Some(k) !in AfterAll(cs).refs
    ensures k < AfterAll(cs + more).made && Some(k) !in AfterAll(cs + more).refs
    decreases |more|
  {
    if more == [] {
      assert cs + more == cs;
    } else {
      var n := |more| - 1;
      GoneForGood(cs, more[..n], k);
      assert (cs + more)[..|cs + more| - 1] == cs + more[..n];
      assert (cs + more)[|cs + more| - 1] == more[n];
    }
  }
}
