/**
  The disk cache of talk/base/diskcache.cc.

  Resources are locked for writing, read when unlocked, and evicted when the
  cache is over its limit.  `Valid` is the accounting invariant: every operation
  keeps it, from the empty cache on.  The file system is a map from a resource
  and a stream index to a size; opening a file may fail, and so may deleting one
  of the files a caller names as resisting.

  Which entry eviction picks is a parameter too, so that `Trim` is the exact
  result of an eviction; `Search` is what the source picks.  `SearchDanglingIff`
  says when that makes a lock go wrong, and `DanglingIff` when any choice does.
*/
module DiskCache {
  import opened Prelude

  datatype LockState = Unlocked | Locked | Unlocking

  datatype Entry = Entry(lock: LockState, accessors: nat, size: nat, streams: nat, lastModified: int)

  /** An open DiskCacheAdapter. */
  datatype Stream = Stream(id: string, index: nat, writer: bool)

  type Disk = map<(string, nat), nat>

  type EntryMap = map<string, Entry>

  // ---------------------------------------------------------------------
  // Sums
  // ---------------------------------------------------------------------

  ghost function Sum(m: EntryMap, f: Entry -> nat): nat {
    if m == map[] then 0
    else
      var k :| k in m;
      f(m[k]) + Sum(m - {k}, f)
  }

  lemma {:induction false} SumRemove(m: EntryMap, f: Entry -> nat, k: string)
    requires k in m
    ensures Sum(m, f) == f(m[k]) + Sum(m - {k}, f)
    decreases |m|
  {
    var j :| j in m && Sum(m, f) == f(m[j]) + Sum(m - {j}, f);
    if j != k {
      SumRemove(m - {j}, f, k);
      SumRemove(m - {k}, f, j);
      assert m - {j} - {k} == m - {k} - {j};
    }
  }

  lemma SumReplace(m: EntryMap, f: Entry -> nat, k: string, e: Entry)
    ensures k in m ==> Sum(m[k := e], f) + f(m[k]) == Sum(m, f) + f(e)
    ensures k !in m ==> Sum(m[k := e], f) == Sum(m, f) + f(e)
  {
    SumRemove(m[k := e], f, k);
    assert m[k := e] - {k} == m - {k};
    if k in m {
      SumRemove(m, f, k);
    } else {
      assert m - {k} == m;
    }
  }

  const SIZE: Entry -> nat := (e: Entry) => e.size
  const ACCESSORS: Entry -> nat := (e: Entry) => e.accessors

  function Count(open: seq<Stream>, id: string): nat {
    if open == [] then 0 else Count(open[1..], id) + if open[0].id == id then 1 else 0
  }

  lemma {:induction false} CountAppend(a: seq<Stream>, b: seq<Stream>, id: string)
    ensures Count(a + b, id) == Count(a, id) + Count(b, id)
  {
    if a == [] {
      assert a + b == b;
    } else {
      CountAppend(a[1..], b, id);
      assert (a + b)[1..] == a[1..] + b;
    }
  }

  lemma {:induction false} CountZero(open: seq<Stream>, id: string)
    ensures Count(open, id) == 0 <==> forall i :: 0 <= i < |open| ==> open[i].id != id
  {
    if open != [] {
      CountZero(open[1..], id);
      assert forall i :: 1 <= i < |open| ==> open[i] == open[1..][i - 1];
    }
  }

  function FileSize(disk: Disk, id: string, index: nat): nat {
    if (id, index) in disk then disk[(id, index)] else 0
  }

  predicate Writing(open: seq<Stream>, id: string, index: nat) { Stream(id, index, true) in open }

  /** The sizes of the first n files of a resource that are not being written. */
  function FileSum(disk: Disk, open: seq<Stream>, id: string, n: nat): nat {
    if n == 0 then 0
    else FileSum(disk, open, id, n - 1) +
         if Writing(open, id, n - 1) then 0 else FileSize(disk, id, n - 1)
  }

  /** Two situations that look the same file by file have the same sum. */
  lemma {:induction false} FileSumSame(disk: Disk, open: seq<Stream>, disk': Disk, open': seq<Stream>, id: string,
                                       n: nat)
    requires forall i :: 0 <= i < n ==> Writing(open, id, i) == Writing(open', id, i)
    requires forall i :: 0 <= i < n && !Writing(open, id, i) ==> FileSize(disk, id, i) == FileSize(disk', id, i)
    ensures FileSum(disk, open, id, n) == FileSum(disk', open', id, n)
  {
    if n > 0 { FileSumSame(disk, open, disk', open', id, n - 1); }
  }

  /** Starting to write file k takes its size out of the sum. */
  lemma {:induction false} FileSumOpen(disk: Disk, open: seq<Stream>, disk': Disk, open': seq<Stream>, id: string,
                                       n: nat, k: nat)
    requires k < n && !Writing(open, id, k) && Writing(open', id, k)
    requires forall i :: 0 <= i < n && i != k ==> Writing(open, id, i) == Writing(open', id, i)
    requires forall i :: 0 <= i < n && i != k ==> FileSize(disk, id, i) == FileSize(disk', id, i)
    ensures FileSum(disk, open, id, n) == FileSum(disk', open', id, n) + FileSize(disk, id, k)
  {
    if k < n - 1 {
      FileSumOpen(disk, open, disk', open', id, n - 1, k);
    } else {
      FileSumSame(disk, open, disk', open', id, n - 1);
    }
  }

  /** Files that do not exist add nothing. */
  lemma {:induction false} FileSumGrow(disk: Disk, open: seq<Stream>, id: string, n: nat, m: nat)
    requires n <= m && forall i :: n <= i < m ==> (id, i) !in disk
    ensures FileSum(disk, open, id, n) == FileSum(disk, open, id, m)
  {
    if n < m { FileSumGrow(disk, open, id, n, m - 1); }
  }

  /** Every entry has the size of its files, and there are no other files. */
  ghost predicate Files(entries: EntryMap, disk: Disk, open: seq<Stream>) {
    && (forall id :: id in entries ==> entries[id].size == FileSum(disk, open, id, entries[id].streams))
    && (forall id, i :: (id, i) in disk ==> id in entries && i < entries[id].streams)
  }

  lemma {:induction false} FileSumAtLeast(disk: Disk, open: seq<Stream>, id: string, n: nat, k: nat)
    requires k < n && !Writing(open, id, k)
    ensures FileSize(disk, id, k) <= FileSum(disk, open, id, n)
  {
    if k < n - 1 { FileSumAtLeast(disk, open, id, n - 1, k); }
  }

  /** The assertion in WriteResource: the entry holds at least the size of the file. */
  lemma PreviousSize(entries: EntryMap, disk: Disk, open: seq<Stream>, id: string, index: nat)
    requires Files(entries, disk, open) && id in entries && !Writing(open, id, index)
    ensures FileSize(disk, id, index) <= entries[id].size
  {
    if (id, index) in disk {
      FileSumAtLeast(disk, open, id, entries[id].streams, index);
    }
  }

  /** A file is opened for writing: it is emptied and no longer counted. */
  lemma OpenForWriting(entries: EntryMap, disk: Disk, open: seq<Stream>, id: string, index: nat, e: Entry)
    requires Files(entries, disk, open) && id in entries && !Writing(open, id, index)
    requires e.streams == Max(entries[id].streams, index + 1)
    requires e.size + FileSize(disk, id, index) == entries[id].size
    ensures Files(entries[id := e], disk[(id, index) := 0], open + [Stream(id, index, true)])
  {
    var disk', open' := disk[(id, index) := 0], open + [Stream(id, index, true)];
    FileSumGrow(disk, open, id, entries[id].streams, e.streams);
    FileSumOpen(disk, open, disk', open', id, e.streams, index);
    forall other | other in entries && other != id
      ensures entries[other].size == FileSum(disk', open', other, entries[other].streams)
    {
      FileSumSame(disk, open, disk', open', other, entries[other].streams);
    }
  }

  /** A written file is closed: it is counted with the size it has now. */
  lemma CloseWritten(entries: EntryMap, disk: Disk, open: seq<Stream>, open': seq<Stream>, id: string, index: nat,
                     e: Entry)
    requires Files(entries, disk, open) && id in entries && index < entries[id].streams
    requires Writing(open, id, index) && !Writing(open', id, index)
    requires forall k, i: nat :: (k, i) != (id, index) ==> Writing(open, k, i) == Writing(open', k, i)
    requires e.streams == entries[id].streams
    requires e.size == entries[id].size + FileSize(disk, id, index)
    ensures Files(entries[id := e], disk, open')
  {
    FileSumOpen(disk, open', disk, open, id, e.streams, index);
    forall other | other in entries && other != id
      ensures entries[other].size == FileSum(disk, open', other, entries[other].streams)
    {
      FileSumSame(disk, open, disk, open', other, entries[other].streams);
    }
  }

  /** The files of a resource are gone, and so is its entry. */
  lemma DeleteKeepsFiles(entries: EntryMap, disk: Disk, disk': Disk, open: seq<Stream>, id: string)
    requires Files(entries, disk, open) && id in entries
    requires OnlyFilesOf(id, disk, disk')
    requires forall i :: 0 <= i < entries[id].streams ==> (id, i) !in disk'
    ensures Files(entries - {id}, disk', open)
  {
    forall other | other in entries && other != id
      ensures entries[other].size == FileSum(disk', open, other, entries[other].streams)
    {
      FileSumSame(disk, open, disk', open, other, entries[other].streams);
    }
  }

  /** disk' is disk without some files of id. */
  ghost predicate OnlyFilesOf(id: string, disk: Disk, disk': Disk) {
    && (forall k :: k in disk' ==> k in disk && disk'[k] == disk[k])
    && (forall k :: k in disk && k !in disk' ==> k.0 == id)
  }

  /** A resource that eviction may remove. */
  predicate Idle(entries: EntryMap, id: string) {
    id in entries && entries[id].lock == Unlocked && entries[id].accessors == 0
  }

  /** Some idle resources, and files of theirs or of no resource, were removed; the rest is as before. */
  ghost predicate Evicted(entries: EntryMap, disk: Disk, entries': EntryMap, disk': Disk) {
    && (forall id :: id in entries' ==> id in entries && entries'[id] == entries[id])
    && (forall id :: id in entries && id !in entries' ==> Idle(entries, id))
    && (forall k :: k in disk' ==> k in disk && disk'[k] == disk[k])
    && (forall k :: k in disk && k !in disk' ==> k.0 in entries ==> Idle(entries, k.0))
  }

  lemma EvictedNothing(entries: EntryMap, disk: Disk)
    ensures Evicted(entries, disk, entries, disk)
  {
  }

  lemma EvictedTwice(e0: EntryMap, d0: Disk, e1: EntryMap, d1: Disk, e2: EntryMap, d2: Disk)
    requires Evicted(e0, d0, e1, d1) && Evicted(e1, d1, e2, d2)
    ensures Evicted(e0, d0, e2, d2)
  {
  }

  /** Streams and entries agree. */
  ghost predicate Streams(entries: EntryMap, open: seq<Stream>) {
    && (forall i :: 0 <= i < |open| ==> open[i].id in entries)
    && (forall i :: 0 <= i < |open| ==> (open[i].writer <==> entries[open[i].id].lock != Unlocked))
    && (forall i :: 0 <= i < |open| && open[i].writer ==> open[i].index < entries[open[i].id].streams)
    && (forall i, j :: 0 <= i < j < |open| && open[i].writer && open[j].writer ==> open[i] != open[j])
    && (forall id :: id in entries ==> entries[id].accessors == Count(open, id))
    && (forall id :: id in entries && entries[id].lock == Unlocking ==> entries[id].accessors > 0)
  }

  lemma CountWithout(open: seq<Stream>, k: nat, id: string)
    requires k < |open|
    ensures Count(open, id) == Count(open[..k] + open[k + 1..], id) + if open[k].id == id then 1 else 0
  {
    assert open == open[..k] + ([open[k]] + open[k + 1..]);
    CountAppend(open[..k], [open[k]] + open[k + 1..], id);
    CountAppend([open[k]], open[k + 1..], id);
    CountAppend(open[..k], open[k + 1..], id);
    assert Count([open[k]], id) == if open[k].id == id then 1 else 0;
  }

  /** The entry of an open stream tells what kind of stream it is. */
  lemma StreamOfEntry(entries: EntryMap, open: seq<Stream>, k: nat)
    requires Streams(entries, open) && k < |open|
    ensures open[k].id in entries && entries[open[k].id].accessors > 0
    ensures open[k].writer <==> entries[open[k].id].lock != Unlocked
  {
    CountZero(open, open[k].id);
  }

  /** The lock state of an entry changes, and its streams are still of the right kind. */
  lemma RelockKeeps(entries: EntryMap, open: seq<Stream>, id: string, e: Entry)
    requires Streams(entries, open) && id in entries
    requires e == entries[id].(lock := e.lock, lastModified := e.lastModified)
    requires e.lock == Unlocking ==> e.accessors > 0
    requires e.accessors > 0 ==> (e.lock == Unlocked <==> entries[id].lock == Unlocked)
    ensures Streams(entries[id := e], open)
  {
    CountZero(open, id);
  }

  lemma FilesAlike(entries: EntryMap, disk: Disk, open: seq<Stream>, id: string, e: Entry)
    requires Files(entries, disk, open) && id in entries
    requires e.size == entries[id].size && e.streams == entries[id].streams
    ensures Files(entries[id := e], disk, open)
  {
    hide FileSum;
  }

  /** One stream less, and one accessor less in its entry. */
  lemma StreamsWithout(entries: EntryMap, open: seq<Stream>, k: nat, e: Entry)
    requires Streams(entries, open) && k < |open|
    requires ReleasedEntry(entries[open[k].id], e)
    ensures Streams(entries[open[k].id := e], open[..k] + open[k + 1..])
  {
    var rest, id := open[..k] + open[k + 1..], open[k].id;
    forall other | other in entries
      ensures Count(open, other) == Count(rest, other) + if other == id then 1 else 0
    {
      CountWithout(open, k, other);
    }
    CountZero(rest, id);
    hide Count;
    assert forall i :: 0 <= i < |rest| ==> rest[i] == open[if i < k then i else i + 1];
  }

  lemma CloseKeepsFiles(entries: EntryMap, disk: Disk, open: seq<Stream>, k: nat, e: Entry)
    requires Files(entries, disk, open) && Streams(entries, open) && k < |open| && open[k].writer
    requires e.streams == entries[open[k].id].streams
    requires e.size == entries[open[k].id].size + FileSize(disk, open[k].id, open[k].index)
    ensures Files(entries[open[k].id := e], disk, open[..k] + open[k + 1..])
  {
    WritersStay(open, k);
    hide Files;
    CloseWritten(entries, disk, open, open[..k] + open[k + 1..], open[k].id, open[k].index, e);
  }

  /** How an entry may change when a stream is opened. */
  predicate OpenedEntry(before: Entry, after: Entry, added: Stream) {
    && after.accessors == before.accessors + 1 && after.lock == before.lock != Unlocking
    && after.size <= before.size && before.streams <= after.streams
    && (added.writer <==> after.lock == Locked)
    && (added.writer ==> added.index < after.streams)
  }

  /** One stream more, and one accessor more in its entry. */
  lemma StreamsWith(entries: EntryMap, open: seq<Stream>, added: Stream, e: Entry)
    requires Streams(entries, open) && added.id in entries
    requires OpenedEntry(entries[added.id], e, added) && !(added.writer && added in open)
    ensures Streams(entries[added.id := e], open + [added])
  {
    forall other | other in entries
      ensures Count(open + [added], other) == Count(open, other) + if other == added.id then 1 else 0
    {
      CountAppend(open, [added], other);
      assert Count([added], other) == if other == added.id then 1 else 0;
    }
  }

  /** An entry after one of its streams was closed, with n more bytes in its files. */
  function Closed(e: Entry, n: nat): Entry {
    e.(accessors := if e.accessors > 0 then e.accessors - 1 else 0, size := e.size + n)
  }

  /** The entries when the last writer of an unlocking entry is closed, before eviction. */
  function LastClosed(entries: EntryMap, disk: Disk, s: Stream, now: int): EntryMap
    requires s.id in entries
  {
    var e := Closed(entries[s.id], FileSize(disk, s.id, s.index));
    entries[s.id := e.(lock := Unlocked, lastModified := now)]
  }

  /** All but an unlocking entry with its last writer. */
  predicate KeepsLock(e: Entry) { !(e.lock == Unlocking && e.accessors == 1) }

  /** How an entry may change when one of its streams is closed. */
  predicate ReleasedEntry(before: Entry, after: Entry) {
    && after.accessors + 1 == before.accessors && after.streams == before.streams
    && after.size >= before.size
    && (after.accessors > 0 ==> after.lock == before.lock)
    && (after.lock == Unlocking ==> after.accessors > 0)
  }

  // ---------------------------------------------------------------------
  // Eviction
  // ---------------------------------------------------------------------

  /**
    Which entry the search for the oldest comes up with.  None stands for a search
    that runs past the end of the map, after which nothing is defined.
  */
  type Pick = EntryMap -> Option<string>

  ghost predicate Picks(pick: Pick) { forall m: EntryMap :: pick(m).Some? ==> pick(m).value in m }

  /** The files that cannot be deleted. */
  type Resist = set<(string, nat)>

  function Remaining(d: Disk, id: string, n: nat, resist: Resist): Disk {
    map k | k in d && (k.0 == id && k.1 < n ==> k in resist) :: d[k]
  }

  predicate Resists(d: Disk, id: string, n: nat, resist: Resist) {
    exists i: nat :: i < n && (id, i) in d && (id, i) in resist
  }

  datatype Ending = Reached | Short | PastEnd

  /** What eviction leaves, how it ended, and whether a file resisted. */
  datatype Trimmed = Trimmed(entries: EntryMap, disk: Disk, ending: Ending, resisted: bool)

  predicate NoneIdle(m: EntryMap) { forall id :: id in m ==> !Idle(m, id) }

  ghost function Trim(m: EntryMap, d: Disk, limit: nat, pick: Pick, resist: Resist): Trimmed
    decreases |m|
  {
    if Sum(m, SIZE) <= limit then Trimmed(m, d, Reached, false)
    else if NoneIdle(m) then Trimmed(m, d, Short, false)
    else if pick(m).None? then Trimmed(m, d, PastEnd, false)
    else if !Idle(m, pick(m).value) then Trimmed(m, d, Short, false)
    else
      var v := pick(m).value;
      var rest := Remaining(d, v, m[v].streams, resist);
      if Resists(d, v, m[v].streams, resist) then Trimmed(m - {v}, rest, Short, true)
      else Trim(m - {v}, rest, limit, pick, resist)
  }

  /** What the end of an eviction says about the state that is left, field by field. */
  lemma TrimMeans(m: EntryMap, d: Disk, limit: nat, pick: Pick, resist: Resist)
    ensures var t := Trim(m, d, limit, pick, resist);
      && Evicted(m, d, t.entries, t.disk)
      && (forall k :: k in t.entries ==> k in m && t.entries[k] == m[k])
      && (forall k :: k in m && k !in t.entries ==> m[k].lock == Unlocked && m[k].accessors == 0)
      && (t.ending == Reached ==> Sum(t.entries, SIZE) <= limit)
      && (t.ending == PastEnd ==> Sum(t.entries, SIZE) > limit)
      && (t.ending == Short && Sum(t.entries, SIZE) <= limit ==> Orphaned(m, t.entries, t.disk))
      && (Sum(m, SIZE) <= limit ==> t == Trimmed(m, d, Reached, false))
  {
    TrimEvicts(m, d, limit, pick, resist);
    TrimNothing(m, d, limit, pick, resist);
    hide Trim, Sum, Orphaned;
  }

  lemma EvictsOne(m: EntryMap, d: Disk, id: string, resist: Resist)
    requires Idle(m, id)
    ensures Evicted(m, d, m - {id}, Remaining(d, id, m[id].streams, resist))
  {
  }

  lemma TrimNothing(m: EntryMap, d: Disk, limit: nat, pick: Pick, resist: Resist)
    ensures Sum(m, SIZE) <= limit ==> Trim(m, d, limit, pick, resist) == Trimmed(m, d, Reached, false)
  {
  }

  /** One turn of the loop in CheckLimit. */
  lemma TrimStep(m: EntryMap, d: Disk, limit: nat, pick: Pick, resist: Resist)
    requires Sum(m, SIZE) > limit
    ensures var t, v := Trim(m, d, limit, pick, resist), pick(m);
      if NoneIdle(m) || (v.Some? && !Idle(m, v.value)) then t == Trimmed(m, d, Short, false)
      else if v.None? then t == Trimmed(m, d, PastEnd, false)
      else
        var rest := Remaining(d, v.value, m[v.value].streams, resist);
        t == if Resists(d, v.value, m[v.value].streams, resist) then Trimmed(m - {v.value}, rest, Short, true)
             else Trim(m - {v.value}, rest, limit, pick, resist)
  {
    hide Sum, Remaining, Resists;
  }

  lemma ResistsNext(d: Disk, id: string, n: nat, resist: Resist)
    ensures Resists(d, id, n + 1, resist) <==> Resists(d, id, n, resist) || ((id, n) in d && (id, n) in resist)
  {
  }

  /** A file of an entry that is gone is still there. */
  predicate Orphaned(m: EntryMap, m': EntryMap, d': Disk) {
    exists f :: f in d' && f.0 in m && f.1 < m[f.0].streams && f.0 !in m'
  }

  /** Whatever is picked, only idle resources go; success means the limit; and a file that resisted is an orphan. */
  lemma {:induction false} TrimEvicts(m: EntryMap, d: Disk, limit: nat, pick: Pick, resist: Resist)
    ensures var t := Trim(m, d, limit, pick, resist);
            && Evicted(m, d, t.entries, t.disk)
            && (t.ending.Reached? ==> Sum(t.entries, SIZE) <= limit && !t.resisted)
            && (!t.ending.Reached? && !t.resisted ==> Sum(t.entries, SIZE) > limit)
            && (t.ending.PastEnd? ==> !t.resisted)
            && (t.resisted ==> Orphaned(m, t.entries, t.disk))
    decreases |m|
  {
    if Sum(m, SIZE) <= limit || NoneIdle(m) || pick(m).None? || !Idle(m, pick(m).value) {
      EvictedNothing(m, d);
    } else {
      var v := pick(m).value;
      var rest := Remaining(d, v, m[v].streams, resist);
      EvictsOne(m, d, v, resist);
      if Resists(d, v, m[v].streams, resist) {
        var i: nat :| i < m[v].streams && (v, i) in d && (v, i) in resist;
        assert (v, i) in rest;
      } else {
        TrimEvicts(m - {v}, rest, limit, pick, resist);
        var t := Trim(m - {v}, rest, limit, pick, resist);
        assert Trim(m, d, limit, pick, resist) == t;
        hide Trim, Remaining, Resists;
        EvictedTwice(m, d, m - {v}, rest, t.entries, t.disk);
        hide Evicted;
      }
    }
  }

  // ---------------------------------------------------------------------
  // When a lock dangles
  // ---------------------------------------------------------------------

  datatype LockResult = Granted | Refused | Dangling | Undefined

  function Created(m: EntryMap, id: string, now: int): EntryMap {
    if id in m then m else m[id := Entry(Unlocked, 0, 0, 0, now)]
  }

  /** Neither locked nor being read. */
  predicate Lockable(m: EntryMap, id: string) { id in m ==> m[id].lock == Unlocking || Idle(m, id) }

  /** What LockResource comes to. */
  ghost function Locking(m: EntryMap, d: Disk, id: string, now: int, limit: nat, pick: Pick,
                         resist: Resist): LockResult {
    if !Lockable(m, id) then Refused
    else
      AfterTrim(Trim(Created(m, id, now), d, limit, pick, resist), id)
  }

  function AfterTrim(t: Trimmed, id: string): LockResult {
    match t.ending
    case Short => Refused
    case PastEnd => Undefined
    case Reached => if id in t.entries then Granted else Dangling
  }

  function InUse(m: EntryMap): EntryMap { map id | id in m && !Idle(m, id) :: m[id] }

  lemma {:induction false} SumPart(a: EntryMap, b: EntryMap)
    requires forall k :: k in a ==> k in b && a[k] == b[k]
    ensures Sum(a, SIZE) <= Sum(b, SIZE)
    decreases |a|
  {
    if a != map[] {
      var k :| k in a;
      SumRemove(a, SIZE, k);
      SumRemove(b, SIZE, k);
      hide Sum;
      SumPart(a - {k}, b - {k});
    }
  }

  lemma CreatedAlike(m: EntryMap, id: string, now: int)
    ensures Sum(Created(m, id, now), SIZE) == Sum(m, SIZE) && InUse(Created(m, id, now)) == InUse(m)
  {
    if id !in m { SumReplace(m, SIZE, id, Entry(Unlocked, 0, 0, 0, now)); }
  }

  /** Picks id as long as it is idle, and otherwise some idle entry if there is one. */
  ghost function IdFirst(m: EntryMap, id: string): (k: string)
    ensures m != map[] ==> k in m
    ensures (exists j :: Idle(m, j)) ==> Idle(m, k)
    ensures Idle(m, id) ==> k == id
  {
    if Idle(m, id) then id
    else if exists j :: Idle(m, j) then var j :| Idle(m, j); j
    else if m != map[] then var j :| j in m; j
    else id
  }

  ghost function Favour(id: string): Pick { (e: EntryMap) => if e == map[] then None else Some(IdFirst(e, id)) }

  lemma InUseAlike(m: EntryMap)
    ensures NoneIdle(m) ==> InUse(m) == m
    ensures forall v :: Idle(m, v) ==> InUse(m - {v}) == InUse(m)
  {
    forall v | Idle(m, v) ensures InUse(m - {v}) == InUse(m) {
      var rest := m - {v};
      assert forall k :: k in rest ==> (Idle(rest, k) <==> Idle(m, k));
    }
  }

  /** When every idle entry may go, the limit is reached if what is in use fits. */
  lemma {:induction false} TrimIdle(m: EntryMap, d: Disk, limit: nat, id: string)
    requires Sum(InUse(m), SIZE) <= limit
    ensures Trim(m, d, limit, Favour(id), {}).ending == Reached
    decreases |m|
  {
    InUseAlike(m);
    hide InUse, Sum;
    if Sum(m, SIZE) > limit {
      var v := Favour(id)(m).value;
      assert Idle(m, v);
      TrimIdle(m - {v}, Remaining(d, v, m[v].streams, {}), limit, id);
    }
  }

  /**
    Whatever the victims are: some choice of them makes LockResource lock an entry
    that was just evicted exactly if the cache is over its limit, the entry is new
    or idle, and what is in use fits the limit.
  */
  lemma DanglingIff(m: EntryMap, d: Disk, id: string, now: int, limit: nat)
    ensures (exists pick, resist :: Picks(pick) && Locking(m, d, id, now, limit, pick, resist) == Dangling)
            <==> Sum(m, SIZE) > limit && (id !in m || Idle(m, id)) && Sum(InUse(m), SIZE) <= limit
  {
    var m1 := Created(m, id, now);
    CreatedAlike(m, id, now);
    if pick, resist :| Picks(pick) && Locking(m, d, id, now, limit, pick, resist) == Dangling {
      DanglingOnly(m1, d, id, limit, pick, resist);
    }
    if Sum(m, SIZE) > limit && (id !in m || Idle(m, id)) && Sum(InUse(m), SIZE) <= limit {
      assert Picks(Favour(id));
      TrimIdle(m1, d, limit, id);
      IdGoes(m1, d, id, limit);
      assert Locking(m, d, id, now, limit, Favour(id), {}) == Dangling;
    }
  }

  lemma DanglingOnly(m: EntryMap, d: Disk, id: string, limit: nat, pick: Pick, resist: Resist)
    requires var t := Trim(m, d, limit, pick, resist); id in m && t.ending == Reached && id !in t.entries
    ensures Sum(m, SIZE) > limit && Idle(m, id) && Sum(InUse(m), SIZE) <= limit
  {
    TrimEvicts(m, d, limit, pick, resist);
    SumPart(InUse(m), Trim(m, d, limit, pick, resist).entries);
  }

  lemma IdGoes(m: EntryMap, d: Disk, id: string, limit: nat)
    requires Idle(m, id) && Sum(m, SIZE) > limit
    ensures id !in Trim(m, d, limit, Favour(id), {}).entries
  {
    TrimEvicts(m - {id}, Remaining(d, id, m[id].streams, {}), limit, Favour(id), {});
  }

  // ---------------------------------------------------------------------
  // The search for the oldest
  // ---------------------------------------------------------------------

  datatype Victim = Nobody | BeyondLast | Chosen(index: nat)

  /** The first idle entry in the order of the keys, or |keys|. */
  function FirstIdle(m: EntryMap, keys: seq<string>): (n: nat)
    ensures n <= |keys| && (n < |keys| ==> Idle(m, keys[n]))
    ensures forall i :: 0 <= i < n ==> !Idle(m, keys[i])
  {
    if keys == [] || Idle(m, keys[0]) then 0 else 1 + FirstIdle(m, keys[1..])
  }

  /** The oldest so far, compared with the entries from i on. */
  function Oldest(m: EntryMap, keys: seq<string>, oldest: nat, i: nat): (n: nat)
    requires oldest < |keys| && i <= |keys| && forall k :: 0 <= k < |keys| ==> keys[k] in m
    ensures n < |keys| && (n == oldest || i <= n)
    ensures n != oldest ==> m[keys[n]].lastModified < m[keys[oldest]].lastModified
    ensures forall k :: i <= k < |keys| ==> m[keys[n]].lastModified <= m[keys[k]].lastModified
    ensures m[keys[n]].lastModified <= m[keys[oldest]].lastModified
    ensures n != oldest ==> forall k :: i <= k < n ==> m[keys[n]].lastModified < m[keys[k]].lastModified
    decreases |keys| - i
  {
    if i == |keys| then oldest
    else Oldest(m, keys, if m[keys[i]].lastModified < m[keys[oldest]].lastModified then i else oldest, i + 1)
  }

  /**
    It starts at the first idle entry but also takes entries that are in use; and
    when the first idle entry is the last of all, it looks at the end of the map
    as if it were an entry.
  */
  function SearchKeys(m: EntryMap, keys: seq<string>): (v: Victim)
    requires forall k :: 0 <= k < |keys| ==> keys[k] in m
    ensures v.Chosen? ==> v.index < |keys|
  {
    var first := FirstIdle(m, keys);
    if first == |keys| then Nobody
    else if first + 1 == |keys| then BeyondLast
    else Chosen(Oldest(m, keys, first + 1, first))
  }

  /** The keys of m in a given order of all keys. */
  function Keys(order: seq<string>, m: EntryMap): (keys: seq<string>)
    ensures forall k :: k in keys <==> k in order && k in m
    ensures forall i :: 0 <= i < |keys| ==> keys[i] in m
  {
    if order == [] then [] else (if order[0] in m then [order[0]] else []) + Keys(order[1..], m)
  }

  /** The search of the source, where the map iterates in this order. */
  function Search(order: seq<string>): Pick {
    (m: EntryMap) =>
      var keys := Keys(order, m);
      match SearchKeys(m, keys)
      case Chosen(index) => Some(keys[index])
      case _ => None
  }

  /**
    The victim is no younger than any entry from the first idle one on.  Among
    equals it is the first, except that the first idle entry gives way to one of
    the same age right behind it.
  */
  predicate IsVictim(m: EntryMap, keys: seq<string>, j: nat)
    requires forall k :: 0 <= k < |keys| ==> keys[k] in m
  {
    var first := FirstIdle(m, keys);
    && first <= j < |keys| && first + 1 < |keys|
    && (forall k :: first <= k < |keys| ==> m[keys[j]].lastModified <= m[keys[k]].lastModified)
    && (forall k :: first < k < j ==> m[keys[j]].lastModified < m[keys[k]].lastModified)
    && (j == first ==> m[keys[j]].lastModified < m[keys[first + 1]].lastModified)
    && (j > first + 1 ==> m[keys[j]].lastModified < m[keys[first]].lastModified)
  }

  lemma SearchIs(m: EntryMap, keys: seq<string>)
    requires forall k :: 0 <= k < |keys| ==> keys[k] in m
    ensures SearchKeys(m, keys) == Nobody <==>
            forall k :: 0 <= k < |keys| ==> m[keys[k]].lock != Unlocked || m[keys[k]].accessors > 0
    ensures SearchKeys(m, keys) == BeyondLast <==> FirstIdle(m, keys) + 1 == |keys|
    ensures forall j :: SearchKeys(m, keys) == Chosen(j) <==> IsVictim(m, keys, j)
  {
    var first := FirstIdle(m, keys);
    if first + 1 < |keys| {
      var n := Oldest(m, keys, first + 1, first);
      assert IsVictim(m, keys, n);
      forall j: nat | IsVictim(m, keys, j) ensures j == n {
        hide Oldest;
      }
    }
  }

  // ---------------------------------------------------------------------
  // When the search of the source makes a lock dangle
  // ---------------------------------------------------------------------

  predicate Lists(order: seq<string>, m: EntryMap) { forall k :: k in m ==> k in order }

  predicate DifferentTimes(m: EntryMap) {
    forall j, k :: j in m && k in m && j != k ==> m[j].lastModified != m[k].lastModified
  }

  /** The entries without the idle ones that are older than e. */
  function Rest(m: EntryMap, e: string): EntryMap
    requires e in m
  {
    map k | k in m && !(Idle(m, k) && m[k].lastModified < m[e].lastModified) :: m[k]
  }

  /** An idle entry is over the limit even without the idle ones that are older. */
  ghost predicate MustGo(m: EntryMap, e: string, limit: nat) { Idle(m, e) && Sum(Rest(m, e), SIZE) > limit }

  /** Some entry follows the first idle one, and those in use that follow are younger than e. */
  predicate Findable(order: seq<string>, m: EntryMap, e: string)
    requires e in m
  {
    var keys := Keys(order, m);
    var first := FirstIdle(m, keys);
    && first + 1 < |keys|
    && forall i :: first < i < |keys| && !Idle(m, keys[i]) ==> m[e].lastModified < m[keys[i]].lastModified
  }

  /** What is in use fits, and all that must go can be found and deleted. */
  ghost predicate Evictable(m: EntryMap, d: Disk, limit: nat, order: seq<string>, resist: Resist) {
    && Sum(InUse(m), SIZE) <= limit
    && forall e :: MustGo(m, e, limit) ==> Findable(order, Rest(m, e), e) && !Resists(d, e, m[e].streams, resist)
  }

  /** The search comes up with the oldest idle entry, if it is findable, or with none that is idle. */
  lemma SearchFinds(order: seq<string>, m: EntryMap, e: string)
    requires Lists(order, m) && DifferentTimes(m) && Idle(m, e)
    requires forall k :: Idle(m, k) ==> m[e].lastModified <= m[k].lastModified
    ensures Search(order)(m) == Some(e) <==> Findable(order, m, e)
    ensures forall v :: Search(order)(m) == Some(v) && Idle(m, v) ==> v == e
  {
    var keys := Keys(order, m);
    var first := FirstIdle(m, keys);
    var p :| 0 <= p < |keys| && keys[p] == e;
    SearchIs(m, keys);
    hide Keys, FirstIdle, SearchKeys;
  }

  lemma {:induction false} OldestIdle(m: EntryMap) returns (e: string)
    requires !NoneIdle(m)
    ensures Idle(m, e) && forall k :: Idle(m, k) ==> m[e].lastModified <= m[k].lastModified
    decreases |m|
  {
    var c :| c in m && Idle(m, c);
    var rest := m - {c};
    assert |rest| < |m| by { assert rest.Keys == m.Keys - {c}; }
    assert forall k :: k != c ==> (Idle(rest, k) <==> Idle(m, k));
    e := c;
    if !NoneIdle(rest) {
      var o := OldestIdle(rest);
      if m[o].lastModified < m[c].lastModified { e := o; }
    }
  }

  /** Without the oldest idle entry, the younger ones are where they were. */
  lemma RestAlike(m: EntryMap, e: string, k: string)
    requires Idle(m, e) && Idle(m, k) && k != e && m[e].lastModified < m[k].lastModified
    ensures Rest(m - {e}, k) == Rest(m, k)
  {
    var m' := m - {e};
    assert forall j :: j in m' ==> (Idle(m', j) <==> Idle(m, j));
  }

  lemma RestOfOldest(m: EntryMap, e: string)
    requires Idle(m, e) && forall k :: Idle(m, k) ==> m[e].lastModified <= m[k].lastModified
    ensures Rest(m, e) == m
  {
  }

  lemma MustGoAlike(m: EntryMap, e: string, limit: nat)
    requires Idle(m, e) && forall k :: Idle(m, k) && k != e ==> m[e].lastModified < m[k].lastModified
    ensures forall k :: k != e ==> (MustGo(m - {e}, k, limit) <==> MustGo(m, k, limit))
  {
    forall k | k != e ensures MustGo(m - {e}, k, limit) <==> MustGo(m, k, limit) {
      assert Idle(m - {e}, k) <==> Idle(m, k);
      if Idle(m, k) { RestAlike(m, e, k); }
      hide Rest;
    }
  }

  lemma EvictableNext(m: EntryMap, d: Disk, limit: nat, order: seq<string>, resist: Resist, e: string)
    requires Idle(m, e) && forall k :: Idle(m, k) && k != e ==> m[e].lastModified < m[k].lastModified
    requires Sum(m, SIZE) > limit && Findable(order, m, e) && !Resists(d, e, m[e].streams, resist)
    ensures Evictable(m, d, limit, order, resist) <==>
            Evictable(m - {e}, Remaining(d, e, m[e].streams, resist), limit, order, resist)
  {
    var m', d' := m - {e}, Remaining(d, e, m[e].streams, resist);
    InUseAlike(m);
    MustGoAlike(m, e, limit);
    RestOfOldest(m, e);
    forall k | MustGo(m', k, limit)
      ensures Rest(m', k) == Rest(m, k)
      ensures Resists(d', k, m[k].streams, resist) <==> Resists(d, k, m[k].streams, resist)
    {
      RestAlike(m, e, k);
      ResistsAlike(d, e, m[e].streams, resist, k, m[k].streams);
      hide Rest, Resists, Remaining;
    }
    hide Rest, Resists, Remaining, Findable, InUse, Sum;
  }

  lemma ResistsAlike(d: Disk, e: string, n: nat, resist: Resist, k: string, i: nat)
    requires k != e
    ensures Resists(Remaining(d, e, n, resist), k, i, resist) <==> Resists(d, k, i, resist)
  {
    var d' := Remaining(d, e, n, resist);
    assert forall j: nat :: (k, j) in d' <==> (k, j) in d;
  }

  /** The entries that stay. */
  ghost function Kept(m: EntryMap, limit: nat): EntryMap { map k | k in m && !MustGo(m, k, limit) :: m[k] }

  /**
    With pairwise different times, the eviction of the source reaches the limit if
    and only if all that must go can go, and then exactly that is gone.
  */
  lemma {:induction false} SearchTrim(m: EntryMap, d: Disk, limit: nat, order: seq<string>, resist: Resist)
    requires Lists(order, m) && DifferentTimes(m)
    ensures var t := Trim(m, d, limit, Search(order), resist);
            && (t.ending == Reached <==> Evictable(m, d, limit, order, resist))
            && (t.ending == Reached ==> t.entries == Kept(m, limit))
    decreases |m|
  {
    hide Evictable, Findable, Search, Rest, Resists, Remaining, InUse, Sum;
    if Sum(m, SIZE) <= limit {
      NothingMustGo(m, limit);
      NothingIsEvictable(m, d, limit, order, resist);
    } else if NoneIdle(m) {
      NoneIsEvictable(m, d, limit, order, resist);
    } else {
      var e := OldestIdle(m);
      SearchFinds(order, m, e);
      if Findable(order, m, e) && !Resists(d, e, m[e].streams, resist) {
        EvictableNext(m, d, limit, order, resist, e);
        KeptNext(m, limit, e);
        hide MustGo, Kept;
        SearchTrim(m - {e}, Remaining(d, e, m[e].streams, resist), limit, order, resist);
      } else {
        OldestMustGo(m, d, limit, order, resist, e);
      }
    }
  }

  lemma NothingIsEvictable(m: EntryMap, d: Disk, limit: nat, order: seq<string>, resist: Resist)
    requires Sum(m, SIZE) <= limit
    ensures Evictable(m, d, limit, order, resist)
  {
    NothingMustGo(m, limit);
    hide MustGo, Sum, InUse, Findable, Resists;
  }

  lemma NoneIsEvictable(m: EntryMap, d: Disk, limit: nat, order: seq<string>, resist: Resist)
    requires Sum(m, SIZE) > limit && NoneIdle(m)
    ensures !Evictable(m, d, limit, order, resist)
  {
    InUseAlike(m);
    hide MustGo, Sum, InUse, Findable, Resists;
  }

  lemma OldestMustGo(m: EntryMap, d: Disk, limit: nat, order: seq<string>, resist: Resist, e: string)
    requires Sum(m, SIZE) > limit && Idle(m, e)
    requires forall k :: Idle(m, k) ==> m[e].lastModified <= m[k].lastModified
    requires !Findable(order, m, e) || Resists(d, e, m[e].streams, resist)
    ensures !Evictable(m, d, limit, order, resist)
  {
    RestOfOldest(m, e);
    hide Sum, InUse, Findable, Resists, Rest;
    assert MustGo(m, e, limit);
  }

  lemma KeptNext(m: EntryMap, limit: nat, e: string)
    requires Sum(m, SIZE) > limit && Idle(m, e)
    requires forall k :: Idle(m, k) && k != e ==> m[e].lastModified < m[k].lastModified
    ensures Kept(m - {e}, limit) == Kept(m, limit)
  {
    MustGoAlike(m, e, limit);
    RestOfOldest(m, e);
    assert MustGo(m, e, limit);
    hide MustGo;
  }

  lemma NothingMustGo(m: EntryMap, limit: nat)
    requires Sum(m, SIZE) <= limit
    ensures Sum(InUse(m), SIZE) <= limit && Kept(m, limit) == m
    ensures forall e :: !MustGo(m, e, limit)
  {
    SumPart(InUse(m), m);
    forall e ensures !MustGo(m, e, limit) {
      if e in m { RestFits(m, limit, e); }
    }
    hide MustGo, InUse, Sum;
  }

  lemma RestFits(m: EntryMap, limit: nat, e: string)
    requires Sum(m, SIZE) <= limit && e in m
    ensures Sum(Rest(m, e), SIZE) <= limit
  {
    hide Sum;
    SumPart(Rest(m, e), m);
  }

  /**
    With the search of the source and pairwise different times, LockResource locks
    an entry that was just evicted if and only if the entry is new or idle, it is
    over the limit even when the older idle entries are gone, and all that must go
    can be found and deleted.
  */
  lemma SearchDanglingIff(m: EntryMap, d: Disk, id: string, now: int, limit: nat, order: seq<string>, resist: Resist)
    requires Lists(order, Created(m, id, now)) && DifferentTimes(Created(m, id, now))
    ensures Locking(m, d, id, now, limit, Search(order), resist) == Dangling <==>
            var m1 := Created(m, id, now);
            (id !in m || Idle(m, id)) && MustGo(m1, id, limit) && Evictable(m1, d, limit, order, resist)
  {
    SearchTrim(Created(m, id, now), d, limit, order, resist);
    hide Trim, Evictable, Search, Sum;
  }

  function Plain(size: nat, time: int): Entry { Entry(Unlocked, 0, size, 1, time) }

  lemma SumOne(k: string, e: Entry)
    ensures Sum(map[k := e], SIZE) == e.size
  {
    SumRemove(map[k := e], SIZE, k);
    assert map[k := e] - {k} == map[];
  }

  lemma SumTwo(j: string, e: Entry, k: string, f: Entry)
    requires j != k
    ensures Sum(map[j := e, k := f], SIZE) == e.size + f.size
  {
    SumRemove(map[j := e, k := f], SIZE, j);
    assert map[j := e, k := f] - {j} == map[k := f];
    SumOne(k, f);
  }

  lemma SearchTwo(j: string, e: Entry, k: string, f: Entry)
    requires j != k && e.lock == Unlocked && e.accessors == 0 && e.lastModified < f.lastModified
    ensures Search([j, k])(map[j := e, k := f]) == Some(j)
  {
    var m := map[j := e, k := f];
    KeysTwo(j, k, m);
    assert Idle(m, j);
    assert IsVictim(m, [j, k], 0);
    SearchIs(m, [j, k]);
    hide SearchKeys, Keys, IsVictim;
  }

  lemma KeysTwo(j: string, k: string, m: EntryMap)
    requires j in m && k in m
    ensures Keys([j, k], m) == [j, k]
  {
    assert Keys([k], m) == [k] by { assert [k][1..] == []; }
    assert [j, k][1..] == [k] && [j, k][0] == j;
    assert Keys([j, k], m) == [j] + Keys([k], m);
  }

  lemma TrimOne(m: EntryMap, d: Disk, limit: nat, pick: Pick, v: string)
    requires Sum(m, SIZE) > limit && pick(m) == Some(v) && Idle(m, v) && Sum(m - {v}, SIZE) <= limit
    ensures var t := Trim(m, d, limit, pick, {}); t.ending == Reached && t.entries == m - {v}
  {
    TrimNothing(m - {v}, Remaining(d, v, m[v].streams, {}), limit, pick, {});
    hide Sum, Remaining;
  }

  /** With the search of the source: "a" is locked when it has just been evicted. */
  lemma DanglingWitness(d: Disk, now: int)
    ensures Locking(map["a" := Plain(10, 0), "b" := Plain(0, 1)], d, "a", now, 5, Search(["a", "b"]), {}) == Dangling
  {
    var m := map["a" := Plain(10, 0), "b" := Plain(0, 1)];
    SumTwo("a", Plain(10, 0), "b", Plain(0, 1));
    SumOne("b", Plain(0, 1));
    SearchTwo("a", Plain(10, 0), "b", Plain(0, 1));
    assert m - {"a"} == map["b" := Plain(0, 1)];
    assert Idle(m, "a");
    TrimOne(m, d, 5, Search(["a", "b"]), "a");
    hide Sum, Search, Trim;
  }

  /** The search of the source spares the new entry "z" here, which other victims would not. */
  lemma SparedBySearch(d: Disk)
    ensures Locking(map["a" := Plain(10, 0)], d, "z", 1, 5, Search(["a", "z"]), {}) == Granted
    ensures exists pick, resist ::
      Picks(pick) && Locking(map["a" := Plain(10, 0)], d, "z", 1, 5, pick, resist) == Dangling
  {
    var m, z := map["a" := Plain(10, 0)], Entry(Unlocked, 0, 0, 0, 1);
    SumOne("a", Plain(10, 0));
    SumNone();
    assert InUse(m) == map[] by { assert Idle(m, "a"); }
    DanglingIff(m, d, "z", 1, 5);
    hide Sum;
    OldestGoes(d, z);
  }

  lemma SumNone()
    ensures Sum(map[], SIZE) == 0
  {
  }

  lemma OldestGoes(d: Disk, z: Entry)
    requires z == Entry(Unlocked, 0, 0, 0, 1)
    ensures Locking(map["a" := Plain(10, 0)], d, "z", 1, 5, Search(["a", "z"]), {}) == Granted
  {
    var m1 := map["a" := Plain(10, 0), "z" := z];
    assert Created(map["a" := Plain(10, 0)], "z", 1) == m1;
    SumTwo("a", Plain(10, 0), "z", z);
    SumOne("z", z);
    SearchTwo("a", Plain(10, 0), "z", z);
    assert m1 - {"a"} == map["z" := z];
    assert Idle(m1, "a");
    TrimOne(m1, d, 5, Search(["a", "z"]), "a");
    hide Sum, Search, Trim;
  }

  /** And when the only entry is to go, the search runs past the end of the map. */
  lemma PastEndWitness(d: Disk, now: int)
    ensures Locking(map["a" := Plain(10, 0)], d, "a", now, 5, Search(["a"]), {}) == Undefined
  {
    var m := map["a" := Plain(10, 0)];
    SumOne("a", Plain(10, 0));
    assert Keys(["a"], m) == ["a"] by { assert ["a"][1..] == []; }
    assert Idle(m, "a") && FirstIdle(m, ["a"]) == 0;
    hide Sum;
  }

  class Cache {
    const maxCache: nat
    var totalSize: nat
    var totalAccessors: nat
    var entries: EntryMap
    var disk: Disk
    var open: seq<Stream>
    ghost var exact: bool   // no file has resisted deletion so far

    /** The two totals are the sums over the entries. */
    ghost predicate Totals()
      reads this`totalSize, this`totalAccessors, this`entries, this`open
    {
      && totalSize == Sum(entries, SIZE)
      && totalAccessors == Sum(entries, ACCESSORS) == |open|
    }

    ghost predicate Valid()
      reads this
    {
      Totals() && Streams(entries, open) && (exact ==> Files(entries, disk, open))
    }

    constructor (maxCache: nat)
      ensures Valid() && exact && entries == map[] && disk == map[] && open == []
      ensures this.maxCache == maxCache
    {
      this.maxCache := maxCache;
      totalSize, totalAccessors := 0, 0;
      entries, disk, open, exact := map[], map[], [], true;
    }

    /** Changes one entry and keeps the totals in step. */
    method Update(id: string, e: Entry)
      requires Totals() && id in entries
      requires totalSize + e.size >= entries[id].size && totalAccessors + e.accessors >= entries[id].accessors
      modifies this`entries
      ensures entries == old(entries)[id := e]
      ensures Sum(entries, SIZE) == totalSize + e.size - old(entries)[id].size
      ensures Sum(entries, ACCESSORS) == totalAccessors + e.accessors - old(entries)[id].accessors
    {
      SumReplace(entries, SIZE, id, e);
      SumReplace(entries, ACCESSORS, id, e);
      entries := entries[id := e];
    }

    /** GetOrCreateEntry(id, true) */
    method GetOrCreate(id: string, now: int)
      requires Valid()
      modifies this`entries
      ensures Valid()
      ensures entries == if id in old(entries) then old(entries)
                         else old(entries)[id := Entry(Unlocked, 0, 0, 0, now)]
    {
      if id !in entries {
        var e := Entry(Unlocked, 0, 0, 0, now);
        SumReplace(entries, SIZE, id, e);
        SumReplace(entries, ACCESSORS, id, e);
        CountZero(open, id);
        entries := entries[id := e];
      }
    }

    method LockResource(id: string, now: int, pick: Pick, resist: Resist) returns (r: LockResult)
      requires Valid() && Picks(pick)
      modifies this
      ensures Valid() && open == old(open)
      ensures r == Locking(old(entries), old(disk), id, now, maxCache, pick, resist)
      ensures Lockable(old(entries), id) && old(totalSize) <= maxCache ==> r == Granted
      ensures Answers(r, id, old(entries))
      ensures r == Granted ==>
        entries[id] == (if id in old(entries) then old(entries)[id] else Entry(Unlocked, 0, 0, 0, now)).(lock := Locked)
      ensures forall k :: k in entries && k != id ==> k in old(entries) && entries[k] == old(entries)[k]
      ensures !Lockable(old(entries), id) ==>
        r == Refused && entries == old(entries) && disk == old(disk) && exact == old(exact)
      ensures Lockable(old(entries), id) ==>
        var t := Trim(Created(old(entries), id, now), old(disk), maxCache, pick, resist);
        && disk == t.disk && exact == (old(exact) && !t.resisted)
        && entries == if r == Granted then t.entries[id := t.entries[id].(lock := Locked)] else t.entries
    {
      CreatedAlike(entries, id, now);
      TrimNothing(Created(entries, id, now), disk, maxCache, pick, resist);
      hide Streams, Files, Trim, Sum;
      GetOrCreate(id, now);
      r := LockEntry(id, pick, resist);
      assert Orphaned(Created(old(entries), id, now), entries, disk) ==> Orphaned(old(entries), entries, disk);
    }

    /**
      What the answer means in the state that is left: the lock is granted within
      the limit only, and to an entry that is there; and within the limit nothing
      else keeps an entry from it that is there and neither locked nor read,
      unless a file resisted its deletion.
    */
    ghost predicate Answers(r: LockResult, id: string, before: EntryMap)
      reads this
    {
      var free := id in before ==>
        before[id].lock == Unlocking || (before[id].lock == Unlocked && before[id].accessors == 0);
      && (r == Granted ==> free && totalSize <= maxCache && id in entries && entries[id].lock == Locked)
      && (r == Dangling ==> free && totalSize <= maxCache && id !in entries)
      && (r == Undefined ==> free && totalSize > maxCache)
      && (r == Refused && free ==> totalSize > maxCache || Orphaned(before, entries, disk))
    }

    /** LockResource, once there is an entry. */
    method LockEntry(id: string, pick: Pick, resist: Resist) returns (r: LockResult)
      requires Valid() && Picks(pick) && id in entries
      modifies this
      ensures Valid() && open == old(open)
      ensures !Lockable(old(entries), id) ==>
        r == Refused && entries == old(entries) && disk == old(disk) && exact == old(exact)
      ensures Lockable(old(entries), id) ==>
        var t := Trim(old(entries), old(disk), maxCache, pick, resist);
        && r == AfterTrim(t, id) && disk == t.disk && exact == (old(exact) && !t.resisted)
        && entries == if r == Granted then t.entries[id := t.entries[id].(lock := Locked)] else t.entries
      ensures Answers(r, id, old(entries))
      ensures r == Granted ==> entries[id] == old(entries)[id].(lock := Locked)
      ensures forall k :: k in entries && k != id ==> k in old(entries) && entries[k] == old(entries)[k]
    {
      hide Totals, Streams, Files, Trim, Sum, Evicted, Orphaned;
      var entry := entries[id];
      if entry.lock == Locked {
        return Refused;
      }
      if entry.lock == Unlocked && entry.accessors > 0 {
        return Refused;
      }
      var ending := FitIn(pick, resist);
      if ending == PastEnd {
        return Undefined;
      }
      if ending == Short {
        return Refused;
      }
      // CheckLimit may have evicted the entry that is about to be locked
      if id !in entries {
        return Dangling;
      }
      Relock(id, entries[id].(lock := Locked));
      r := Granted;
    }

    /** The test in LockResource: CheckLimit is called only over the limit. */
    method FitIn(pick: Pick, resist: Resist) returns (ending: Ending)
      requires Valid() && Picks(pick)
      modifies this
      ensures Valid() && open == old(open)
      ensures var t := Trim(old(entries), old(disk), maxCache, pick, resist);
        && entries == t.entries && disk == t.disk && ending == t.ending
        && exact == (old(exact) && !t.resisted)
      ensures forall k :: k in entries ==> k in old(entries) && entries[k] == old(entries)[k]
      ensures ending == Reached ==> totalSize <= maxCache
      ensures ending == PastEnd ==> totalSize > maxCache
      ensures ending == Short && totalSize <= maxCache ==> Orphaned(old(entries), entries, disk)
    {
      TrimNothing(entries, disk, maxCache, pick, resist);
      assert totalSize == Sum(entries, SIZE);
      hide Totals, Streams, Files, Trim, Sum, Evicted, Orphaned;
      ending := Reached;
      if totalSize > maxCache {
        ending := CheckLimit(pick, resist);
      }
    }

    /** Only the lock state and the time of an entry change. */
    method Relock(id: string, e: Entry)
      requires Valid() && id in entries && e == entries[id].(lock := e.lock, lastModified := e.lastModified)
      requires e.lock == Unlocking ==> e.accessors > 0
      requires e.accessors > 0 ==> (e.lock == Unlocked <==> entries[id].lock == Unlocked)
      modifies this`entries
      ensures Valid() && entries == old(entries)[id := e]
    {
      RelockKeeps(entries, open, id, e);
      if exact {
        FilesAlike(entries, disk, open, id, e);
      }
      hide Streams, Sum, Files;
      Update(id, e);
    }

    /** The second result is false when the search for the oldest ran past the end. */
    method UnlockResource(id: string, now: int, pick: Pick, resist: Resist) returns (ok: bool, defined: bool)
      requires Valid() && id in entries && Picks(pick)
      modifies this
      ensures Valid() && open == old(open)
      ensures ok <==> old(entries)[id].lock == Locked
      ensures !ok ==> entries == old(entries) && disk == old(disk) && exact == old(exact) && defined
      ensures ok && old(entries)[id].accessors > 0 ==>
        && defined && entries == old(entries)[id := old(entries)[id].(lock := Unlocking)]
        && disk == old(disk) && exact == old(exact)
      ensures ok && old(entries)[id].accessors == 0 ==>
        var m := old(entries)[id := old(entries)[id].(lock := Unlocked, lastModified := now)];
        var t := Trim(m, old(disk), maxCache, pick, resist);
        && entries == t.entries && disk == t.disk && exact == (old(exact) && !t.resisted)
        && defined == !t.ending.PastEnd?
    {
      hide Totals, Streams, Files, Trim, Evicted;
      var entry := entries[id];
      defined := true;
      if entry.lock != Locked {
        return false, defined;
      }
      if entry.accessors > 0 {
        Relock(id, entry.(lock := Unlocking));
      } else {
        Relock(id, entry.(lock := Unlocked, lastModified := now));
        var ending := CheckLimit(pick, resist);
        defined := ending != PastEnd;
      }
      ok := true;
    }

    /** The files of an idle resource; false when one of them could not be deleted. */
    method DeleteFiles(id: string, n: nat, resist: Resist) returns (success: bool)
      modifies this`disk
      ensures disk == Remaining(old(disk), id, n, resist)
      ensures success <==> !Resists(old(disk), id, n, resist)
    {
      success := true;
      var i := 0;
      assert disk == Remaining(disk, id, 0, resist);
      while i < n
        invariant i <= n && disk == Remaining(old(disk), id, i, resist)
        invariant success <==> !Resists(old(disk), id, i, resist)
      {
        ResistsNext(old(disk), id, i, resist);
        if (id, i) in disk {
          if (id, i) !in resist {
            disk := disk - {(id, i)};
          } else {
            success := false;
          }
        }
        i := i + 1;
      }
    }

    /** True when nothing is left to delete; false when the resource is in use or a file resists. */
    method DeleteResource(id: string, resist: Resist) returns (ok: bool)
      requires Valid()
      modifies this
      ensures Valid() && open == old(open) && totalAccessors == old(totalAccessors)
      ensures id !in old(entries) ==> ok
      ensures id in old(entries) && (old(entries)[id].lock != Unlocked || old(entries)[id].accessors > 0) ==> !ok
      ensures !Idle(old(entries), id) ==>
        entries == old(entries) && totalSize == old(totalSize) && disk == old(disk) && exact == old(exact)
      ensures id in old(entries) && old(entries)[id].lock == Unlocked && old(entries)[id].accessors == 0 ==>
        var n := old(entries)[id].streams;
        && entries == old(entries) - {id} && totalSize == old(totalSize) - old(entries)[id].size
        && disk == Remaining(old(disk), id, n, resist)
        && (ok <==> !Resists(old(disk), id, n, resist))
        && exact == (old(exact) && ok)
    {
      if id !in entries {
        return true;
      }
      var entry := entries[id];
      if entry.lock != Unlocked || entry.accessors > 0 {
        return false;
      }
      ok := DeleteFiles(id, entry.streams, resist);
      if exact && ok {
        DeleteKeepsFiles(entries, old(disk), disk, open, id);
      }
      hide Resists;
      exact := exact && ok;
      Erase(id);
    }

    /** The entry goes, and its size with it. */
    method Erase(id: string)
      requires Totals() && Streams(entries, open) && Idle(entries, id)
      modifies this`entries, this`totalSize
      ensures Totals() && Streams(entries, open) && entries == old(entries) - {id}
      ensures totalSize == old(totalSize) - old(entries)[id].size
    {
      SumRemove(entries, SIZE, id);
      SumRemove(entries, ACCESSORS, id);
      CountZero(open, id);
      totalSize := totalSize - entries[id].size;
      entries := entries - {id};
    }

    /** The search for the victim in CheckLimit, over the keys in the map's order. */
    method PickVictim(keys: seq<string>) returns (v: Victim)
      requires forall i :: 0 <= i < |keys| ==> keys[i] in entries
      ensures v == SearchKeys(entries, keys)
    {
      var first := FindIdle(keys);
      if first == |keys| {
        return Nobody;
      }
      var oldest := first + 1;
      if oldest == |keys| {
        return BeyondLast;
      }
      var i := first;
      while i < |keys|
        invariant first <= i <= |keys| && 0 <= oldest < |keys|
        invariant Oldest(entries, keys, first + 1, first) == Oldest(entries, keys, oldest, i)
      {
        if entries[keys[i]].lastModified < entries[keys[oldest]].lastModified {
          oldest := i;
        }
        i := i + 1;
      }
      v := Chosen(oldest);
    }

    method FindIdle(keys: seq<string>) returns (n: nat)
      requires forall i :: 0 <= i < |keys| ==> keys[i] in entries
      ensures n == FirstIdle(entries, keys)
    {
      n := 0;
      assert keys[0..] == keys;
      while n < |keys|
        invariant n <= |keys| && FirstIdle(entries, keys) == n + FirstIdle(entries, keys[n..])
      {
        var e := entries[keys[n]];
        if !(e.lock != Unlocked || e.accessors > 0) {
          return;
        }
        assert keys[n..][1..] == keys[n + 1..];
        n := n + 1;
      }
    }

    /** Evicts what is picked until the cache is within its limit. */
    method CheckLimit(pick: Pick, resist: Resist) returns (ending: Ending)
      requires Valid() && Picks(pick)
      modifies this
      ensures Valid() && open == old(open) && totalAccessors == old(totalAccessors)
      ensures var t := Trim(old(entries), old(disk), maxCache, pick, resist);
        && entries == t.entries && disk == t.disk && ending == t.ending
        && exact == (old(exact) && !t.resisted)
      ensures ending == Reached ==> totalSize <= maxCache
      ensures old(totalSize) <= maxCache ==> ending == Reached && entries == old(entries) && disk == old(disk)
      ensures Evicted(old(entries), old(disk), entries, disk)
      ensures forall k :: k in entries ==> k in old(entries) && entries[k] == old(entries)[k]
      ensures forall k :: k in old(entries) && k !in entries ==>
        old(entries)[k].lock == Unlocked && old(entries)[k].accessors == 0
      ensures ending == PastEnd ==> totalSize > maxCache
      ensures ending == Short && totalSize <= maxCache ==> Orphaned(old(entries), entries, disk)
    {
      TrimMeans(entries, disk, maxCache, pick, resist);
      hide Evicted, Streams, Files, Trim, Orphaned;
      ending := Evict(pick, resist);
    }

    /** The loop of CheckLimit. */
    method Evict(pick: Pick, resist: Resist) returns (ending: Ending)
      requires Valid() && Picks(pick)
      modifies this
      ensures Valid() && open == old(open) && totalAccessors == old(totalAccessors)
      ensures totalSize == Sum(entries, SIZE)
      ensures var t := Trim(old(entries), old(disk), maxCache, pick, resist);
        && entries == t.entries && disk == t.disk && ending == t.ending
        && exact == (old(exact) && !t.resisted)
    {
      ghost var t := Trim(entries, disk, maxCache, pick, resist);
      hide Evicted, Streams, Files, Trim, Remaining, Resists;
      while totalSize > maxCache
        invariant Valid() && open == old(open) && totalAccessors == old(totalAccessors) && exact == old(exact)
        invariant t == Trim(entries, disk, maxCache, pick, resist)
        decreases |entries|
      {
        TrimStep(entries, disk, maxCache, pick, resist);
        if NoneIdle(entries) {
          return Short;
        }
        var victim := pick(entries);
        if victim == None {
          return PastEnd;
        }
        var deleted := DeleteResource(victim.value, resist);
        if !deleted {
          return Short;
        }
      }
      TrimNothing(entries, disk, maxCache, pick, resist);
      ending := Reached;
    }

    /** Opens a file for writing; the entry no longer counts what it held. */
    method WriteResource(id: string, index: nat, canOpen: bool) returns (ok: bool)
      requires Valid() && id in entries
      requires !Writing(open, id, index)
      modifies this
      ensures Valid() && exact == old(exact)
      ensures ok <==> old(entries)[id].lock == Locked && canOpen
      ensures !ok ==> entries == old(entries) && open == old(open)
      ensures !ok ==> disk == old(disk) && totalSize == old(totalSize)
      ensures ok ==> open == old(open) + [Stream(id, index, true)] && disk == old(disk)[(id, index) := 0]
      ensures ok ==>
        var e := old(entries)[id]; var n := FileSize(old(disk), id, index);
        entries == old(entries)[id := Entry(Locked, e.accessors + 1, if n > e.size then 0 else e.size - n,
                                            Max(e.streams, index + 1), e.lastModified)]
      ensures exact && ok ==> totalSize == old(totalSize) - FileSize(old(disk), id, index)
    {
      var entry := entries[id];
      if entry.lock != Locked {
        return false;
      }
      var previous := FileSize(disk, id, index);
      if exact {
        PreviousSize(entries, disk, open, id, index);
      }
      if previous > entry.size {
        previous := entry.size;
      }
      if !canOpen {
        return false;
      }
      ok := true;
      var added := Stream(id, index, true);
      var updated := entry.(streams := Max(entry.streams, index + 1),
                            size := entry.size - previous, accessors := entry.accessors + 1);
      if exact {
        OpenForWriting(entries, disk, open, id, index, updated);
      }
      AddStream(id, updated, added);
      disk := disk[(id, index) := 0];
    }

    /** Puts a new stream and its entry in place, with both totals. */
    method AddStream(id: string, e: Entry, added: Stream)
      requires Totals() && Streams(entries, open) && id in entries && added.id == id
      requires OpenedEntry(entries[id], e, added) && !(added.writer && added in open)
      modifies this`entries, this`totalSize, this`totalAccessors, this`open
      ensures Totals() && Streams(entries, open)
      ensures entries == old(entries)[id := e] && open == old(open) + [added]
      ensures totalSize == old(totalSize) - old(entries)[id].size + e.size
    {
      StreamsWith(entries, open, added, e);
      hide Streams;
      SumRemove(entries, SIZE, id);
      SumReplace(entries, SIZE, id, e);
      SumReplace(entries, ACCESSORS, id, e);
      totalSize := totalSize - entries[id].size + e.size;
      totalAccessors := totalAccessors + 1;
      entries := entries[id := e];
      open := open + [added];
    }

    /** Opens an existing file of an unlocked resource for reading. */
    method ReadResource(id: string, index: nat, canOpen: bool) returns (ok: bool)
      requires Valid() && id in entries
      modifies this
      ensures Valid() && disk == old(disk) && totalSize == old(totalSize) && exact == old(exact)
      ensures ok <==>
        old(entries)[id].lock == Unlocked && index < old(entries)[id].streams && (id, index) in disk && canOpen
      ensures !ok ==> entries == old(entries) && open == old(open)
      ensures ok ==> open == old(open) + [Stream(id, index, false)]
      ensures ok ==> entries == old(entries)[id := old(entries)[id].(accessors := old(entries)[id].accessors + 1)]
    {
      var entry := entries[id];
      if entry.lock != Unlocked {
        return false;
      }
      if index >= entry.streams {
        return false;
      }
      if !canOpen || (id, index) !in disk {
        return false;
      }
      ok := true;
      ghost var entries0, open0 := entries, open;
      AddStream(id, entry.(accessors := entry.accessors + 1), Stream(id, index, false));
      if exact {
        SameFiles(entries0, open0);
      }
    }

    /** Readers and locks do not matter to the files. */
    lemma SameFiles(entries0: EntryMap, open0: seq<Stream>)
      requires Files(entries0, disk, open0)
      requires entries.Keys == entries0.Keys
      requires forall id :: id in entries ==>
                 entries[id].size == entries0[id].size && entries[id].streams == entries0[id].streams
      requires forall id, i: nat :: Writing(open, id, i) == Writing(open0, id, i)
      ensures Files(entries, disk, open)
    {
      forall id | id in entries
        ensures entries[id].size == FileSum(disk, open, id, entries[id].streams)
      {
        FileSumSame(disk, open0, disk, open, id, entries[id].streams);
      }
    }

    /** An open writer changes the size of its file. */
    method StreamWrite(k: nat, n: nat)
      requires Valid() && k < |open| && open[k].writer
      modifies this`disk
      ensures Valid() && disk == old(disk)[(open[k].id, open[k].index) := n]
    {
      var s := open[k];
      ghost var disk0 := disk;
      disk := disk[(s.id, s.index) := n];
      if exact {
        forall id | id in entries
          ensures entries[id].size == FileSum(disk, open, id, entries[id].streams)
        {
          FileSumSame(disk0, open, disk, open, id, entries[id].streams);
        }
      }
    }

    /** Takes a stream away, together with its entry's count. */
    method RemoveStream(k: nat, e: Entry)
      requires Totals() && Streams(entries, open) && k < |open|
      requires ReleasedEntry(entries[open[k].id], e)
      modifies this`entries, this`totalSize, this`totalAccessors, this`open
      ensures Totals() && Streams(entries, open)
      ensures entries == old(entries)[old(open)[k].id := e]
      ensures open == old(open)[..k] + old(open)[k + 1..]
      ensures totalSize == old(totalSize) + e.size - old(entries)[old(open)[k].id].size
      ensures totalAccessors == old(totalAccessors) - 1
    {
      var id := open[k].id;
      StreamsWithout(entries, open, k, e);
      hide Streams;
      SumReplace(entries, SIZE, id, e);
      SumReplace(entries, ACCESSORS, id, e);
      totalSize := totalSize + e.size - entries[id].size;
      totalAccessors := totalAccessors - 1;
      entries := entries[id := e];
      open := open[..k] + open[k + 1..];
    }

    /** A lock outlives its writers; the last writer of an unlocking entry unlocks it. */
    predicate WriterGone(before: EntryMap, id: string, now: int)
      requires id in before
      reads this`entries
    {
      var e := before[id];
      if e.lock == Locked || e.accessors > 1 then
        id in entries && entries[id].lock == e.lock && entries[id].accessors + 1 == e.accessors
      else
        id in entries ==>
          && entries[id].lock == Unlocked && entries[id].accessors == 0 && entries[id].lastModified == now
    }

    /** Closing a stream: ReleaseResource, called by the adapter's destructor. */
    method ReleaseResource(k: nat, now: int, pick: Pick, resist: Resist) returns (defined: bool)
      requires Valid() && k < |open| && Picks(pick)
      modifies this
      ensures Valid() && open == old(open)[..k] + old(open)[k + 1..]
      ensures totalAccessors == old(totalAccessors) - 1
      ensures !old(open)[k].writer ==> totalSize == old(totalSize) && disk == old(disk)
      ensures !old(open)[k].writer ==> exact == old(exact) && defined
      ensures !old(open)[k].writer ==>
        entries == old(entries)[old(open)[k].id := Closed(old(entries)[old(open)[k].id], 0)]
      ensures old(open)[k].writer && KeepsLock(old(entries)[old(open)[k].id]) ==>
        var s := old(open)[k]; var n := FileSize(disk, s.id, s.index);
        && totalSize == old(totalSize) + n && disk == old(disk) && exact == old(exact) && defined
        && entries == old(entries)[s.id := Closed(old(entries)[s.id], n)]
      ensures old(open)[k].writer && !KeepsLock(old(entries)[old(open)[k].id]) ==>
        var t := Trim(LastClosed(old(entries), old(disk), old(open)[k], now), old(disk), maxCache, pick, resist);
        && entries == t.entries && disk == t.disk && exact == (old(exact) && !t.resisted)
        && defined == !t.ending.PastEnd?
      ensures old(open)[k].writer ==> WriterGone(old(entries), old(open)[k].id, now)
    {
      var entry := entries[open[k].id];
      StreamOfEntry(entries, open, k);
      hide Totals, Streams, Files, Trim;
      if entry.lock == Unlocked {
        ReleaseReader(k);
        defined := true;
      } else {
        defined := ReleaseWriter(k, now, pick, resist);
      }
    }

    method ReleaseReader(k: nat)
      requires Valid() && k < |open| && !open[k].writer && entries[open[k].id].lock == Unlocked
      requires entries[open[k].id].accessors > 0
      modifies this
      ensures Valid() && open == old(open)[..k] + old(open)[k + 1..]
      ensures totalAccessors == old(totalAccessors) - 1 && totalSize == old(totalSize)
      ensures disk == old(disk) && exact == old(exact)
      ensures entries == old(entries)[old(open)[k].id := Closed(old(entries)[old(open)[k].id], 0)]
    {
      var entry := entries[open[k].id];
      WritersStay(open, k);
      ghost var entries0, open0 := entries, open;
      RemoveStream(k, entry.(accessors := entry.accessors - 1));
      hide Streams;
      if exact {
        SameFiles(entries0, open0);
      }
      hide Files;
    }

    method ReleaseWriter(k: nat, now: int, pick: Pick, resist: Resist) returns (defined: bool)
      requires Picks(pick) && Valid() && k < |open| && open[k].writer && entries[open[k].id].accessors > 0
      modifies this
      ensures Valid() && open == old(open)[..k] + old(open)[k + 1..]
      ensures totalAccessors == old(totalAccessors) - 1
      ensures KeepsLock(old(entries)[old(open)[k].id]) ==>
        var s := old(open)[k]; var n := FileSize(disk, s.id, s.index);
        && totalSize == old(totalSize) + n && disk == old(disk) && exact == old(exact) && defined
        && entries == old(entries)[s.id := Closed(old(entries)[s.id], n)]
      ensures !KeepsLock(old(entries)[old(open)[k].id]) ==>
        var t := Trim(LastClosed(old(entries), old(disk), old(open)[k], now), old(disk), maxCache, pick, resist);
        && entries == t.entries && disk == t.disk && exact == (old(exact) && !t.resisted)
        && defined == !t.ending.PastEnd?
      ensures WriterGone(old(entries), old(open)[k].id, now)
    {
      var entry := entries[open[k].id];
      hide Totals, Streams, Files, Trim, Evicted;
      if entry.lock == Unlocking && entry.accessors == 1 {
        defined := ReleaseLast(k, now, pick, resist);
      } else {
        CloseWriter(k, entry);
        defined := true;
      }
    }

    /** The last stream of an unlocking entry: it is unlocked, and the limit is checked. */
    method ReleaseLast(k: nat, now: int, pick: Pick, resist: Resist) returns (defined: bool)
      requires Picks(pick) && Valid() && k < |open| && open[k].writer
      requires entries[open[k].id].accessors == 1 && entries[open[k].id].lock == Unlocking
      modifies this
      ensures Valid() && open == old(open)[..k] + old(open)[k + 1..]
      ensures totalAccessors == old(totalAccessors) - 1
      ensures var t := Trim(LastClosed(old(entries), old(disk), old(open)[k], now), old(disk), maxCache, pick, resist);
        && entries == t.entries && disk == t.disk && exact == (old(exact) && !t.resisted)
        && defined == !t.ending.PastEnd?
      ensures var id := old(open)[k].id; id in entries ==>
        && entries[id].lock == Unlocked && entries[id].accessors == 0 && entries[id].lastModified == now
    {
      var entry := entries[open[k].id];
      hide Totals, Streams, Files, Trim, Evicted;
      CloseWriter(k, entry.(lastModified := now, lock := Unlocked));
      assert entries == LastClosed(old(entries), disk, old(open)[k], now);
      var ending := CheckLimit(pick, resist);
      defined := ending != PastEnd;
    }

    /** The bytes that were written are counted, and the stream goes. */
    method CloseWriter(k: nat, entry: Entry)
      requires Valid() && k < |open| && open[k].writer && entries[open[k].id].accessors > 0
      requires entry == entries[open[k].id].(lastModified := entry.lastModified, lock := entry.lock)
      requires entry.lock == entries[open[k].id].lock || (entry.lock == Unlocked && entry.accessors == 1)
      requires entry.lock == Unlocking ==> entry.accessors > 1
      modifies this`entries, this`totalSize, this`totalAccessors, this`open
      ensures Valid() && open == old(open)[..k] + old(open)[k + 1..]
      ensures totalAccessors == old(totalAccessors) - 1
      ensures var s := old(open)[k]; var n := FileSize(disk, s.id, s.index);
        totalSize == old(totalSize) + n && entries == old(entries)[s.id := Closed(entry, n)]
    {
      hide Files, Sum, Streams, Totals;
      var s := open[k];
      var e := entry.(accessors := entry.accessors - 1, size := entry.size + FileSize(disk, s.id, s.index));
      if exact {
        CloseKeepsFiles(entries, disk, open, k, e);
      }
      RemoveStream(k, e);
    }

    /**
      Purge empties the map but leaves total_size_ alone.  So it keeps the
      accounting exactly when there was nothing to purge.
    */
    method Purge(resist: Resist) returns (ok: bool)
      requires Valid()
      modifies this
      ensures ok <==> old(totalAccessors) == 0 && forall f :: f in old(disk) ==> f !in resist
      ensures !ok ==> Valid() && entries == old(entries) && totalSize == old(totalSize)
      ensures !ok ==>
        disk == if old(totalAccessors) > 0 then old(disk) else map f | f in old(disk) && f in resist :: old(disk)[f]
      ensures exact == (old(exact) && (ok || disk == old(disk)))
      ensures ok ==> disk == map[] && Streams(entries, open) && Files(entries, disk, open)
      ensures old(totalAccessors) > 0 ==> !ok
      ensures ok ==> entries == map[] && totalSize == old(totalSize)
      ensures ok ==> (Totals() <==> old(totalSize) == 0)
    {
      if totalAccessors > 0 {
        return false;
      }
      ghost var disk0 := disk;
      disk := map f | f in disk && f in resist :: disk[f];
      assert forall f :: f in disk0 && f in resist ==> f in disk;
      if disk != map[] {
        assert exists f :: f in disk && f in disk0 && f in resist;
        exact := exact && disk == disk0;
        return false;
      }
      ok := true;
      entries := map[];
    }
  }

  /** Which files are written when stream k is closed. */
  lemma WritersStay(open: seq<Stream>, k: nat)
    requires k < |open|
    requires forall i, j :: 0 <= i < j < |open| && open[i].writer && open[j].writer ==> open[i] != open[j]
    ensures var rest := open[..k] + open[k + 1..];
            && (!open[k].writer ==> forall id, i: nat :: Writing(rest, id, i) == Writing(open, id, i))
            && (open[k].writer ==>
                  && Writing(open, open[k].id, open[k].index) && !Writing(rest, open[k].id, open[k].index)
                  && forall id, i: nat :: (id, i) != (open[k].id, open[k].index) ==>
                       Writing(open, id, i) == Writing(rest, id, i))
  {
    var rest := open[..k] + open[k + 1..];
    forall s | s in open
      ensures s in rest || s == open[k]
    {
      var i :| 0 <= i < |open| && open[i] == s;
      if i < k { assert rest[i] == s; } else if i > k { assert rest[i - 1] == s; }
    }
    forall i | 0 <= i < |rest|
      ensures rest[i] in open && (open[k].writer ==> rest[i] != open[k])
    {
      assert rest[i] == open[if i < k then i else i + 1];
    }
  }
}
