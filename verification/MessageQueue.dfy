/**
  The message queue of talk/base/messagequeue.cc: posted messages, delayed
  messages, one peeked message, clearing and stopping.

  A ghost history records what the queue has seen.  `Accounts` says where every
  accepted message is and in what order messages leave; all operations keep it.
  `Fetches` says exactly what Get does to the queues while other threads act.
  Milliseconds do not wrap around here.
*/
module MessageQueue {
  import opened Prelude

  const MQID_ANY: nat := 0xffff_ffff
  const MQID_DISPOSE: nat := 0xffff_fffe

  datatype Message = Message(handler: Option<nat>, id: nat, data: nat)

  /** A message and the time before which it must not be delivered. */
  datatype Timed = Timed(trigger: nat, msg: Message)

  function Messages(ts: seq<Timed>): (ms: seq<Message>)
    ensures |ms| == |ts| && forall i :: 0 <= i < |ts| ==> ms[i] == ts[i].msg
  {
    if ts == [] then [] else Messages(ts[..|ts| - 1]) + [ts[|ts| - 1].msg]
  }

  lemma MessagesAppend(ts: seq<Timed>, t: Timed)
    ensures Messages(ts + [t]) == Messages(ts) + [t.msg]
  {
  }

  // ---------------------------------------------------------------------
  // The history of a queue
  // ---------------------------------------------------------------------

  /**
    accepted    all messages that were posted while the queue was not stopped
    readyLog    messages in the order in which they became ready
    readyAt     and the times at which they did
    returned    what Get has returned, in order
    cleared, disposed, clearedDelayed   what was deleted, and why
    clock       the latest time at which the queues were checked
  */
  datatype History = History(
    accepted: multiset<Timed>, readyLog: seq<Timed>, readyAt: seq<nat>,
    returned: seq<Message>, cleared: multiset<Message>, disposed: multiset<Message>,
    clearedDelayed: multiset<Timed>, clock: nat)

  const EMPTY := History(multiset{}, [], [], [], multiset{}, multiset{}, multiset{}, 0)

  /** Every accepted message is in exactly one place; `hand` is what is being handed out. */
  ghost predicate Places(h: History, hand: seq<Message>, msgq: seq<Message>, dmsgq: seq<Timed>) {
    && h.accepted == multiset(h.readyLog) + multiset(dmsgq) + h.clearedDelayed
    && multiset(Messages(h.readyLog)) ==
         multiset(h.returned) + multiset(hand) + multiset(msgq) + h.cleared + h.disposed
  }

  /** First in, first out: what was handed out and then the queue follow the ready log. */
  ghost predicate Ordered(h: History, hand: seq<Message>, msgq: seq<Message>) {
    Subsequence(h.returned + hand + msgq, Messages(h.readyLog))
  }

  /** No message becomes ready before its trigger. */
  ghost predicate OnTime(log: seq<Timed>, times: seq<nat>, clock: nat) {
    && |times| == |log|
    && forall i :: 0 <= i < |log| ==> log[i].trigger <= times[i] <= clock
  }

  predicate NoDisposal(ms: seq<Message>) { forall i :: 0 <= i < |ms| ==> ms[i].id != MQID_DISPOSE }

  ghost predicate Accounts(h: History, hand: seq<Message>, msgq: seq<Message>, dmsgq: seq<Timed>) {
    && Places(h, hand, msgq, dmsgq) && Ordered(h, hand, msgq) && OnTime(h.readyLog, h.readyAt, h.clock)
    && NoDisposal(h.returned) && NoDisposal(hand)
    && (forall m :: m in h.disposed ==> m.id == MQID_DISPOSE)
  }

  function LogReady(h: History, t: Timed): History {
    h.(readyLog := h.readyLog + [t], readyAt := h.readyAt + [h.clock])
  }

  function LogPost(h: History, msg: Message): History {
    LogReady(h, Timed(0, msg)).(accepted := h.accepted + multiset{Timed(0, msg)})
  }

  lemma OrderedGrows(h: History, hand: seq<Message>, msgq: seq<Message>, t: Timed)
    requires Ordered(h, hand, msgq)
    ensures Ordered(LogReady(h, t), hand, msgq + [t.msg])
  {
    MessagesAppend(h.readyLog, t);
    SubsequenceGrows(h.returned + hand + msgq, Messages(h.readyLog), t.msg);
    assert h.returned + hand + (msgq + [t.msg]) == (h.returned + hand + msgq) + [t.msg];
  }

  lemma OnTimeGrows(h: History, t: Timed)
    requires OnTime(h.readyLog, h.readyAt, h.clock) && t.trigger <= h.clock
    ensures OnTime(h.readyLog + [t], h.readyAt + [h.clock], h.clock)
  {
  }

  lemma PlacesPost(h: History, hand: seq<Message>, msgq: seq<Message>, dmsgq: seq<Timed>, msg: Message)
    requires Places(h, hand, msgq, dmsgq)
    ensures Places(LogPost(h, msg), hand, msgq + [msg], dmsgq)
  {
    MessagesAppend(h.readyLog, Timed(0, msg));
  }

  lemma MoveOne<T>(all: multiset<T>, to: multiset<T>, from: multiset<T>, others: multiset<T>, x: T)
    requires all == to + (from + multiset{x}) + others
    ensures all == (to + multiset{x}) + from + others
  {
  }

  lemma RemoveOne<T>(s: seq<T>, i: nat)
    requires i < |s|
    ensures multiset(s) == multiset(s[..i] + s[i + 1..]) + multiset{s[i]}
  {
    assert s == s[..i] + [s[i]] + s[i + 1..];
  }

  lemma PlacesReady(h: History, hand: seq<Message>, msgq: seq<Message>, dmsgq: seq<Timed>, i: nat)
    requires Places(h, hand, msgq, dmsgq) && i < |dmsgq|
    ensures Places(LogReady(h, dmsgq[i]), hand, msgq + [dmsgq[i].msg], dmsgq[..i] + dmsgq[i + 1..])
  {
    hide Messages;
    var t, rest := dmsgq[i], dmsgq[..i] + dmsgq[i + 1..];
    MessagesAppend(h.readyLog, t);
    RemoveOne(dmsgq, i);
    MoveOne(h.accepted, multiset(h.readyLog), multiset(rest), h.clearedDelayed, t);
    assert multiset(h.readyLog + [t]) == multiset(h.readyLog) + multiset{t};
    assert multiset(Messages(h.readyLog) + [t.msg]) == multiset(Messages(h.readyLog)) + multiset{t.msg};
    assert multiset(msgq + [t.msg]) == multiset(msgq) + multiset{t.msg};
  }

  lemma PlacesPop(h: History, hand: seq<Message>, m: Message, msgq: seq<Message>, dmsgq: seq<Timed>)
    requires Places(h, hand, [m] + msgq, dmsgq)
    ensures Places(h, hand + [m], msgq, dmsgq)
    ensures Places(h.(disposed := h.disposed + multiset{m}), hand, msgq, dmsgq)
  {
  }

  lemma PlacesReturn(h: History, m: Message, msgq: seq<Message>, dmsgq: seq<Timed>)
    requires Places(h, [m], msgq, dmsgq)
    ensures Places(h.(returned := h.returned + [m]), [], msgq, dmsgq)
    ensures Places(h.(cleared := h.cleared + multiset{m}), [], msgq, dmsgq)
  {
  }

  lemma PostKeeps(h: History, hand: seq<Message>, msgq: seq<Message>, dmsgq: seq<Timed>, msg: Message)
    requires Accounts(h, hand, msgq, dmsgq)
    ensures Accounts(LogPost(h, msg), hand, msgq + [msg], dmsgq)
  {
    hide Places, NoDisposal;
    OrderedGrows(h, hand, msgq, Timed(0, msg));
    OnTimeGrows(h, Timed(0, msg));
    PlacesPost(h, hand, msgq, dmsgq, msg);
    hide Subsequence, Messages;
  }

  lemma DelayKeeps(h: History, hand: seq<Message>, msgq: seq<Message>, dmsgq: seq<Timed>, t: Timed)
    requires Accounts(h, hand, msgq, dmsgq)
    ensures Accounts(h.(accepted := h.accepted + multiset{t}), hand, msgq, dmsgq + [t])
  {
  }

  lemma ReadyKeeps(h: History, hand: seq<Message>, msgq: seq<Message>, dmsgq: seq<Timed>, i: nat)
    requires Accounts(h, hand, msgq, dmsgq) && i < |dmsgq| && dmsgq[i].trigger <= h.clock
    ensures Accounts(LogReady(h, dmsgq[i]), hand, msgq + [dmsgq[i].msg], dmsgq[..i] + dmsgq[i + 1..])
  {
    hide Places, NoDisposal;
    OrderedGrows(h, hand, msgq, dmsgq[i]);
    OnTimeGrows(h, dmsgq[i]);
    PlacesReady(h, hand, msgq, dmsgq, i);
    hide Ordered, OnTime;
  }

  lemma TimePasses(h: History, hand: seq<Message>, msgq: seq<Message>, dmsgq: seq<Timed>, now: nat)
    requires Accounts(h, hand, msgq, dmsgq) && h.clock <= now
    ensures Accounts(h.(clock := now), hand, msgq, dmsgq)
  {
  }

  /** The first ready message is taken out, to be handed over or disposed of. */
  lemma PopKeeps(h: History, msgq: seq<Message>, dmsgq: seq<Timed>)
    requires Accounts(h, [], msgq, dmsgq) && msgq != []
    ensures msgq[0].id != MQID_DISPOSE ==> Accounts(h, [msgq[0]], msgq[1..], dmsgq)
    ensures msgq[0].id == MQID_DISPOSE ==>
              Accounts(h.(disposed := h.disposed + multiset{msgq[0]}), [], msgq[1..], dmsgq)
  {
    hide Places, OnTime, Messages;
    var m, rest := msgq[0], msgq[1..];
    assert msgq == [m] + rest;
    PlacesPop(h, [], m, rest, dmsgq);
    assert [] + [m] == [m];
    var all := h.returned + [] + msgq;
    assert all == h.returned + [m] + rest;
    SubsequenceDrops(all, Messages(h.readyLog), |h.returned|);
    assert all[..|h.returned|] + all[|h.returned| + 1..] == h.returned + [] + rest;
    hide Subsequence;
  }

  /** What is in hand is returned. */
  lemma ReturnKeeps(h: History, m: Message, msgq: seq<Message>, dmsgq: seq<Timed>)
    requires Accounts(h, [m], msgq, dmsgq)
    ensures Accounts(h.(returned := h.returned + [m]), [], msgq, dmsgq)
  {
    hide Places, Messages, Subsequence;
    PlacesReturn(h, m, msgq, dmsgq);
    assert [m][0] == m;
    assert h.returned + [m] + msgq == (h.returned + [m]) + [] + msgq;
  }

  /** What is in hand, the peeked message, is cleared. */
  lemma ClearHandKeeps(h: History, m: Message, msgq: seq<Message>, dmsgq: seq<Timed>)
    requires Accounts(h, [m], msgq, dmsgq)
    ensures Accounts(h.(cleared := h.cleared + multiset{m}), [], msgq, dmsgq)
  {
    hide Places, OnTime, Messages;
    PlacesReturn(h, m, msgq, dmsgq);
    var all := h.returned + [m] + msgq;
    SubsequenceDrops(all, Messages(h.readyLog), |h.returned|);
    assert all[..|h.returned|] + all[|h.returned| + 1..] == h.returned + [] + msgq;
    hide Subsequence;
  }

  lemma PlacesClear(h: History, hand: seq<Message>, front: seq<Message>, m: Message, back: seq<Message>,
                    dmsgq: seq<Timed>)
    requires Places(h, hand, front + [m] + back, dmsgq)
    ensures Places(h.(cleared := h.cleared + multiset{m}), hand, front + back, dmsgq)
  {
  }

  lemma ClearReadyKeeps(h: History, hand: seq<Message>, front: seq<Message>, m: Message, back: seq<Message>,
                        dmsgq: seq<Timed>)
    requires Accounts(h, hand, front + [m] + back, dmsgq)
    ensures Accounts(h.(cleared := h.cleared + multiset{m}), hand, front + back, dmsgq)
  {
    hide Places, OnTime, Messages;
    PlacesClear(h, hand, front, m, back, dmsgq);
    var all := h.returned + hand + (front + [m] + back);
    var k := |h.returned| + |hand| + |front|;
    SubsequenceDrops(all, Messages(h.readyLog), k);
    assert all[..k] + all[k + 1..] == h.returned + hand + (front + back);
    hide Subsequence;
  }

  /** The order in which the priority queue is kept does not matter. */
  lemma DelayedPermuted(h: History, hand: seq<Message>, msgq: seq<Message>, one: seq<Timed>, two: seq<Timed>)
    requires Accounts(h, hand, msgq, one) && multiset(one) == multiset(two)
    ensures Accounts(h, hand, msgq, two)
  {
  }

  lemma ClearDelayedKeeps(h: History, hand: seq<Message>, msgq: seq<Message>, front: seq<Timed>, t: Timed,
                          back: seq<Timed>)
    requires Accounts(h, hand, msgq, front + [t] + back)
    ensures Accounts(h.(clearedDelayed := h.clearedDelayed + multiset{t}), hand, msgq, front + back)
  {
  }

  /**
    What the accounts mean for a returned message: it has a place in the ready
    log behind that of every message returned before it, and its trigger had
    passed when it got there.
  */
  lemma {:induction false} ReturnedInOrder(xs: seq<Message>, ys: seq<Message>) returns (at: seq<nat>)
    requires Subsequence(xs, ys)
    ensures |at| == |xs|
    ensures forall i :: 0 <= i < |xs| ==> at[i] < |ys| && ys[at[i]] == xs[i]
    ensures forall i, j :: 0 <= i < j < |xs| ==> at[i] < at[j]
    decreases |ys|
  {
    if xs == [] {
      at := [];
    } else {
      var m, n := |xs| - 1, |ys| - 1;
      if Subsequence(xs, ys[..n]) {
        at := ReturnedInOrder(xs, ys[..n]);
      } else {
        at := ReturnedInOrder(xs[..m], ys[..n]);
        at := at + [n];
      }
    }
  }

  lemma ReturnedOnTime(h: History, msgq: seq<Message>, dmsgq: seq<Timed>) returns (at: seq<nat>)
    requires Accounts(h, [], msgq, dmsgq)
    ensures |at| == |h.returned + msgq|
    ensures forall i, j :: 0 <= i < j < |at| ==> at[i] < at[j]
    ensures forall i :: 0 <= i < |at| ==> at[i] < |h.readyLog| && at[i] < |h.readyAt|
    ensures forall i :: 0 <= i < |at| ==> h.readyLog[at[i]].msg == (h.returned + msgq)[i]
    ensures forall i :: 0 <= i < |at| ==> h.readyLog[at[i]].trigger <= h.readyAt[at[i]] <= h.clock
  {
    assert h.returned + [] + msgq == h.returned + msgq;
    at := ReturnedInOrder(h.returned + msgq, Messages(h.readyLog));
  }

  // ---------------------------------------------------------------------
  // Clearing
  // ---------------------------------------------------------------------

  /** What Clear(handler, id) deletes. */
  predicate Matches(handler: Option<nat>, id: nat, m: Message) {
    && (handler == None || m.handler == handler)
    && (id == MQID_ANY || m.id == id)
  }

  /** The messages that Clear keeps, in their order. */
  function Kept(ms: seq<Message>, handler: Option<nat>, id: nat): seq<Message> {
    if ms == [] then []
    else
      var n := |ms| - 1;
      Kept(ms[..n], handler, id) + if Matches(handler, id, ms[n]) then [] else [ms[n]]
  }

  /** Kept is an in-order selection that has no match ... */
  lemma {:induction false} KeptInOrder(ms: seq<Message>, handler: Option<nat>, id: nat)
    ensures Subsequence(Kept(ms, handler, id), ms)
  {
    if ms != [] {
      var n := |ms| - 1;
      var front := Kept(ms[..n], handler, id);
      KeptInOrder(ms[..n], handler, id);
      SubsequenceGrows(front, ms[..n], ms[n]);
      assert Kept(ms, handler, id) == front + if Matches(handler, id, ms[n]) then [] else [ms[n]];
      hide Kept, Subsequence, Matches;
      assert ms == ms[..n] + [ms[n]];
      assert front + [] == front;
    }
  }

  /** ... and every other message as often as before. */
  lemma {:induction false} KeptIsExact(ms: seq<Message>, handler: Option<nat>, id: nat, m: Message)
    ensures multiset(Kept(ms, handler, id))[m] == if Matches(handler, id, m) then 0 else multiset(ms)[m]
  {
    if ms != [] {
      var n := |ms| - 1;
      KeptIsExact(ms[..n], handler, id, m);
      assert ms == ms[..n] + [ms[n]];
    }
  }

  lemma KeptNext(ms: seq<Message>, n: nat, handler: Option<nat>, id: nat)
    requires n < |ms|
    ensures Kept(ms[..n + 1], handler, id) ==
            Kept(ms[..n], handler, id) + if Matches(handler, id, ms[n]) then [] else [ms[n]]
  {
    assert ms[..n + 1][..n] == ms[..n];
  }

  /** Of what is kept nothing has the handler and the id, and nothing that differs in one of them is lost. */
  lemma KeptMeans(ms: seq<Message>, handler: Option<nat>, id: nat)
    ensures forall m :: m in Kept(ms, handler, id) ==>
              (handler.Some? && m.handler != handler) || (id != MQID_ANY && m.id != id)
    ensures forall m: Message :: (handler.Some? && m.handler != handler) || (id != MQID_ANY && m.id != id) ==>
              multiset(Kept(ms, handler, id))[m] == multiset(ms)[m]
  {
    var kept := Kept(ms, handler, id);
    forall m: Message
      ensures multiset(kept)[m] ==
              if (handler.Some? && m.handler != handler) || (id != MQID_ANY && m.id != id) then multiset(ms)[m] else 0
    {
      KeptIsExact(ms, handler, id, m);
    }
    forall m | m in kept ensures (handler.Some? && m.handler != handler) || (id != MQID_ANY && m.id != id) {
      assert multiset(kept)[m] > 0;
    }
  }

  predicate NoMatch(ts: seq<Timed>, handler: Option<nat>, id: nat) {
    forall i :: 0 <= i < |ts| ==> !Matches(handler, id, ts[i].msg)
  }

  /** All delayed messages that do not match are there as often as before. */
  ghost predicate SameOthers(before: seq<Timed>, after: multiset<Timed>, handler: Option<nat>, id: nat) {
    forall t: Timed :: !Matches(handler, id, t.msg) ==> after[t] == multiset(before)[t]
  }

  /** t was taken from `from`, and kept unless it matches. */
  ghost predicate Took(kept: seq<Timed>, from: seq<Timed>, kept': seq<Timed>, from': seq<Timed>, t: Timed,
                       handler: Option<nat>, id: nat)
  {
    && multiset(from) == multiset(from') + multiset{t}
    && kept' == if Matches(handler, id, t.msg) then kept else kept + [t]
  }

  lemma StartTook(all: seq<Timed>, handler: Option<nat>, id: nat)
    ensures NoMatch([], handler, id) && SameOthers(all, multiset([]) + multiset(all), handler, id)
  {
  }

  lemma TookKeeps(all: seq<Timed>, kept: seq<Timed>, from: seq<Timed>, kept': seq<Timed>, from': seq<Timed>, t: Timed,
                  handler: Option<nat>, id: nat)
    requires NoMatch(kept, handler, id) && SameOthers(all, multiset(kept) + multiset(from), handler, id)
    requires Took(kept, from, kept', from', t, handler, id)
    ensures NoMatch(kept', handler, id) && SameOthers(all, multiset(kept') + multiset(from'), handler, id)
  {
  }

  lemma {:induction false} HasLeast(ts: seq<Timed>)
    requires ts != []
    ensures exists i :: IsLeast(ts, i)
  {
    if |ts| == 1 {
      assert IsLeast(ts, 0);
    } else {
      var n := |ts| - 1;
      HasLeast(ts[..n]);
      var i :| IsLeast(ts[..n], i);
      assert forall j :: 0 <= j < n ==> ts[..n][j] == ts[j];
      assert IsLeast(ts, if ts[n].trigger < ts[i].trigger then n else i);
    }
  }

  predicate IsLeast(ts: seq<Timed>, i: int) {
    0 <= i < |ts| && forall j :: 0 <= j < |ts| ==> ts[i].trigger <= ts[j].trigger
  }

  /** The time to the next trigger, if there is one. */
  ghost predicate NextDue(delayed: seq<Timed>, now: nat, delayNext: int) {
    if delayed == [] then delayNext == FOREVER
    else delayNext > 0 && exists i :: IsLeast(delayed, i) && delayNext == delayed[i].trigger - now
  }

  // ---------------------------------------------------------------------
  // What Get returns
  // ---------------------------------------------------------------------

  datatype Outcome = Got(msg: Message) | TimedOut | StopSeen | StillWaiting

  /** What another thread does. */
  datatype Event = Posted(msg: Message) | PostedDelayed(delay: nat, at: nat, msg: Message) | Stopped

  /** What happens between the scan and the test for a stop, then while waiting, and when the wait ends. */
  datatype Wait = Wait(gap: seq<Event>, events: seq<Event>, now: nat)

  const FOREVER: int := -1

  /** The queues and the stop flag. */
  datatype Queues = Queues(msgq: seq<Message>, dmsgq: seq<Timed>, stopped: bool)

  function Meanwhile(q: Queues, e: Event): Queues {
    if q.stopped then q
    else
      match e
      case Posted(msg) => q.(msgq := q.msgq + [msg])
      case PostedDelayed(delay, at, msg) => q.(dmsgq := q.dmsgq + [Timed(at + delay, msg)])
      case Stopped => q.(stopped := true)
  }

  function After(q: Queues, events: seq<Event>): Queues {
    if events == [] then q
    else Meanwhile(After(q, events[..|events| - 1]), events[|events| - 1])
  }

  /** due are the messages of all whose time has come, earliest first, and later are the others. */
  ghost predicate Due(all: seq<Timed>, now: nat, due: seq<Timed>, later: seq<Timed>) {
    && multiset(all) == multiset(due) + multiset(later)
    && (forall i :: 0 <= i < |due| ==> due[i].trigger <= now)
    && (forall i, j :: 0 <= i < j < |due| ==> due[i].trigger <= due[j].trigger)
    && (forall i :: 0 <= i < |later| ==> now < later[i].trigger)
  }

  predicate AllDisposals(ms: seq<Message>) { forall i :: 0 <= i < |ms| ==> ms[i].id == MQID_DISPOSE }

  predicate IsSkip(before: seq<Message>, m: Message, after: seq<Message>, k: int) {
    && 0 <= k < |before| && before[k] == m && after == before[k + 1..] && m.id != MQID_DISPOSE
    && AllDisposals(before[..k])
  }

  /** m is the first of `before` that is no disposal, and `after` is what follows it. */
  ghost predicate Skips(before: seq<Message>, m: Message, after: seq<Message>) {
    exists k :: IsSkip(before, m, after, k)
  }

  /** One scan of the queues finds r, or nothing but disposals. */
  ghost predicate Scans(q: Queues, now: nat, due: seq<Timed>, r: Option<Message>, q': Queues) {
    && Due(q.dmsgq, now, due, q'.dmsgq) && q'.stopped == q.stopped
    && match r
       case Some(m) => Skips(q.msgq + Messages(due), m, q'.msgq)
       case None => AllDisposals(q.msgq + Messages(due)) && q'.msgq == []
  }

  function Gap(waits: seq<Wait>): seq<Event> { if waits == [] then [] else waits[0].gap }

  predicate Expired(cmsWait: int, start: nat, now: nat) { cmsWait != FOREVER && now - start >= cmsWait }

  /** Scans, and as long as they find nothing waits, until a message, a stop or the timeout. */
  ghost predicate Fetches(q: Queues, cmsWait: int, start: nat, now: nat, waits: seq<Wait>, r: Outcome, q': Queues)
    decreases |waits|, 2
  {
    exists due, m, scanned :: Scans(q, now, due, m, scanned) && Ends(m, scanned, cmsWait, start, waits, r, q')
  }

  ghost predicate Ends(m: Option<Message>, scanned: Queues, cmsWait: int, start: nat, waits: seq<Wait>, r: Outcome,
                       q': Queues)
    decreases |waits|, 1
  {
    match m
    case Some(msg) => r == Got(msg) && q' == scanned
    case None => Goes(After(scanned, Gap(waits)), cmsWait, start, waits, r, q')
  }

  /** After a scan that found nothing. */
  ghost predicate Goes(q: Queues, cmsWait: int, start: nat, waits: seq<Wait>, r: Outcome, q': Queues)
    decreases |waits|, 0
  {
    if q.stopped then r == StopSeen && q' == q
    else if waits == [] then r == StillWaiting && q' == q
    else
      var woken := After(q, waits[0].events);
      if Expired(cmsWait, start, waits[0].now) then r == TimedOut && q' == woken
      else Fetches(woken, cmsWait, start, waits[0].now, waits[1..], r, q')
  }

  lemma StoppedStays(q: Queues, events: seq<Event>)
    requires q.stopped
    ensures After(q, events) == q
  {
  }

  lemma AfterNext(q: Queues, events: seq<Event>, n: nat)
    requires n < |events|
    ensures After(q, events[..n + 1]) == Meanwhile(After(q, events[..n]), events[n])
  {
    assert events[..n + 1][..n] == events[..n];
  }

  /** A message whose time has come is due. */
  lemma DueHas(all: seq<Timed>, now: nat, due: seq<Timed>, later: seq<Timed>, i: nat)
    requires Due(all, now, due, later) && i < |all| && all[i].trigger <= now
    ensures all[i].msg in Messages(due)
  {
    assert all[i] in multiset(all);
    assert all[i] !in multiset(later);
    assert all[i] in due;
    var k :| 0 <= k < |due| && due[k] == all[i];
    assert Messages(due)[k] == all[i].msg;
  }

  /** None of them is due. */
  predicate NotDue(d: seq<Timed>, now: nat) { forall i :: 0 <= i < |d| ==> now < d[i].trigger }

  /** Something is ready at the time of the first scan. */
  predicate Ready(q: Queues, now: nat) {
    || (exists i :: 0 <= i < |q.msgq| && q.msgq[i].id != MQID_DISPOSE)
    || (exists i :: 0 <= i < |q.dmsgq| && q.dmsgq[i].trigger <= now && q.dmsgq[i].msg.id != MQID_DISPOSE)
  }

  lemma ReadyIsFound(q: Queues, now: nat, due: seq<Timed>, m: Option<Message>, scanned: Queues)
    requires Scans(q, now, due, m, scanned) && Ready(q, now)
    ensures m.Some?
  {
    var all := q.msgq + Messages(due);
    if i :| 0 <= i < |q.msgq| && q.msgq[i].id != MQID_DISPOSE {
      assert all[i] == q.msgq[i];
    } else {
      var i :| 0 <= i < |q.dmsgq| && q.dmsgq[i].trigger <= now && q.dmsgq[i].msg.id != MQID_DISPOSE;
      DueHas(q.dmsgq, now, due, scanned.dmsgq, i);
      var k :| 0 <= k < |due| && Messages(due)[k] == q.dmsgq[i].msg;
      assert all[|q.msgq| + k] == Messages(due)[k];
    }
  }

  /** If a message is ready or due when Get begins, Get returns the first one, without waiting. */
  lemma ReadyIsGot(q: Queues, cmsWait: int, start: nat, now: nat, waits: seq<Wait>, r: Outcome, q': Queues)
    requires Fetches(q, cmsWait, start, now, waits, r, q') && Ready(q, now)
    ensures r.Got? && q'.stopped == q.stopped
    ensures exists due :: Due(q.dmsgq, now, due, q'.dmsgq) && Skips(q.msgq + Messages(due), r.msg, q'.msgq)
  {
    var due, m, scanned :| Scans(q, now, due, m, scanned) && Ends(m, scanned, cmsWait, start, waits, r, q');
    EndsSo(m, scanned, cmsWait, start, waits, r, q');
    hide Ready, Ends, Goes, Due, Skips, Fetches;
    ReadyIsFound(q, now, due, m, scanned);
  }

  /** A Get that begins on a stopped queue does not wait, and fails only if nothing is ready or due. */
  lemma StoppedDrains(q: Queues, cmsWait: int, start: nat, now: nat, waits: seq<Wait>, r: Outcome, q': Queues)
    requires Fetches(q, cmsWait, start, now, waits, r, q') && q.stopped
    ensures r.Got? || (r == StopSeen && q'.msgq == [] && !Ready(q, now) && NotDue(q'.dmsgq, now))
  {
    if Ready(q, now) {
      ReadyIsGot(q, cmsWait, start, now, waits, r, q');
    } else {
      var due, m, scanned :| Scans(q, now, due, m, scanned) && Ends(m, scanned, cmsWait, start, waits, r, q');
      StoppedStays(scanned, Gap(waits));
      EndsSo(m, scanned, cmsWait, start, waits, r, q');
      hide Ready, Skips, Fetches;
    }
  }

  lemma SkipsBehind(front: seq<Message>, before: seq<Message>, m: Message, after: seq<Message>)
    requires AllDisposals(front) && Skips(before, m, after)
    ensures Skips(front + before, m, after)
  {
    var k :| IsSkip(before, m, after, k);
    assert (front + before)[..|front| + k] == front + before[..k];
    assert IsSkip(front + before, m, after, |front| + k);
  }

  // ---------------------------------------------------------------------
  // Which message a Get that waits returns
  // ---------------------------------------------------------------------

  const NOTHING := Queues([], [], false)

  /** What is posted during a wait, and what is posted with a delay. */
  function PostsIn(w: Wait): seq<Message> { After(NOTHING, w.gap + w.events).msgq }

  function DelaysIn(w: Wait): seq<Timed> { After(NOTHING, w.gap + w.events).dmsgq }

  lemma {:induction false} AfterAdds(q: Queues, events: seq<Event>)
    requires !q.stopped
    ensures var p := After(NOTHING, events);
            && After(q, events) == Queues(q.msgq + p.msgq, q.dmsgq + p.dmsgq, Stopped in events)
            && p.stopped == (Stopped in events)
    decreases |events|
  {
    if events != [] {
      var n := |events| - 1;
      assert events == events[..n] + [events[n]];
      AfterAdds(q, events[..n]);
    }
  }

  /** dues[i] is what scan i finds due among what scan i - 1 left and what was posted since. */
  ghost predicate DueChain(delayed: seq<Timed>, now: nat, waits: seq<Wait>, dues: seq<seq<Timed>>, left: seq<Timed>)
    requires 0 < |dues| <= |waits| + 1
    decreases |dues|
  {
    if |dues| == 1 then Due(delayed, now, dues[0], left)
    else
      exists later :: Due(delayed, now, dues[0], later) &&
        DueChain(later + DelaysIn(waits[0]), waits[0].now, waits[1..], dues[1..], left)
  }

  /** What comes to the ready queue: due at scan 0, posted in wait 0, due at scan 1, and so on. */
  function Arrived(waits: seq<Wait>, dues: seq<seq<Timed>>): seq<Message>
    requires |dues| <= |waits| + 1
    decreases |dues|
  {
    if dues == [] then []
    else if |dues| == 1 then Messages(dues[0])
    else Messages(dues[0]) + (PostsIn(waits[0]) + Arrived(waits[1..], dues[1..]))
  }

  /** The waits before the last scan: no stop was seen after a scan, and the time was not up. */
  predicate WentOn(q: Queues, cmsWait: int, start: nat, waits: seq<Wait>, n: nat)
    requires n <= |waits|
  {
    && (n > 0 ==> !q.stopped)
    && (forall i :: 0 <= i < n ==>
          Stopped !in waits[i].gap && (cmsWait == FOREVER || waits[i].now < start + cmsWait))
    && (forall i :: 0 <= i < n - 1 ==> Stopped !in waits[i].events)
  }

  /** m was found by the scan of dues[|dues| - 1]. */
  ghost predicate GotAfter(q: Queues, cmsWait: int, start: nat, now: nat, waits: seq<Wait>, m: Message, q': Queues,
                           dues: seq<seq<Timed>>)
  {
    && 0 < |dues| <= |waits| + 1
    && WentOn(q, cmsWait, start, waits, |dues| - 1)
    && DueChain(q.dmsgq, now, waits, dues, q'.dmsgq)
    && (|dues| > 1 ==> AllDisposals(q.msgq + Arrived(waits, dues[..|dues| - 1])))
    && Skips(q.msgq + Arrived(waits, dues), m, q'.msgq)
  }

  /**
    The message returned is the first one, disposals aside, of the old ready queue
    and then what arrived, in order of arrival; up to the scan before the last
    there were only disposals; and what follows the message is left.
  */
  lemma {:induction false} GotIsNext(q: Queues, cmsWait: int, start: nat, now: nat, waits: seq<Wait>, m: Message,
                                     q': Queues)
    requires Fetches(q, cmsWait, start, now, waits, Got(m), q')
    ensures exists dues :: GotAfter(q, cmsWait, start, now, waits, m, q', dues)
    decreases |waits|
  {
    var due, found, scanned :|
      Scans(q, now, due, found, scanned) && Ends(found, scanned, cmsWait, start, waits, Got(m), q');
    EndsSo(found, scanned, cmsWait, start, waits, Got(m), q');
    hide Fetches, Ends, Goes, Skips, Messages, AllDisposals, Due, After, Expired;
    if found.Some? {
      GotAtOnce(q, cmsWait, start, now, waits, m, q', due);
    } else {
      var here := After(scanned, Gap(waits));
      GotLater(here, cmsWait, start, waits, m, q');
      var woken := After(here, waits[0].events);
      GotIsNext(woken, cmsWait, start, waits[0].now, waits[1..], m, q');
      hide GotAfter;
      var dues :| GotAfter(woken, cmsWait, start, waits[0].now, waits[1..], m, q', dues);
      GotStep(q, cmsWait, start, now, waits, m, q', due, scanned, woken, dues);
    }
  }

  /** And whatever looks like that is what Get may return. */
  lemma {:induction false} NextIsGot(q: Queues, cmsWait: int, start: nat, now: nat, waits: seq<Wait>, m: Message,
                                     q': Queues, dues: seq<seq<Timed>>)
    requires GotAfter(q, cmsWait, start, now, waits, m, q', dues)
    requires q'.stopped == if |dues| == 1 then q.stopped else Stopped in waits[|dues| - 2].events
    ensures Fetches(q, cmsWait, start, now, waits, Got(m), q')
    decreases |dues|
  {
    hide Fetches;
    if |dues| == 1 {
      assert Scans(q, now, dues[0], Some(m), q') by { hide Skips, Due, Messages; }
      FetchesGot(q, cmsWait, start, now, waits, m, q');
    } else {
      var later := NextStep(q, cmsWait, start, now, waits, m, q', dues);
      hide GotAfter;
      var scanned := Queues([], later, false);
      var woken := Queues(PostsIn(waits[0]), later + DelaysIn(waits[0]), Stopped in waits[0].events);
      NextIsGot(woken, cmsWait, start, waits[0].now, waits[1..], m, q', dues[1..]);
      NotStopped(scanned, waits[0].gap);
      WokenIs(scanned, waits[0]);
      FetchesGoes(q, cmsWait, start, now, waits, scanned);
    }
  }

  lemma NotStopped(q: Queues, events: seq<Event>)
    requires !q.stopped && Stopped !in events
    ensures !After(q, events).stopped
  {
    AfterAdds(q, events);
  }

  /** One wait less at the beginning. */
  lemma NextStep(q: Queues, cmsWait: int, start: nat, now: nat, waits: seq<Wait>, m: Message, q': Queues,
                 dues: seq<seq<Timed>>) returns (later: seq<Timed>)
    requires GotAfter(q, cmsWait, start, now, waits, m, q', dues) && |dues| > 1
    ensures !q.stopped && Stopped !in waits[0].gap && !Expired(cmsWait, start, waits[0].now)
    ensures Scans(q, now, dues[0], None, Queues([], later, false))
    ensures var woken := Queues(PostsIn(waits[0]), later + DelaysIn(waits[0]), Stopped in waits[0].events);
            GotAfter(woken, cmsWait, start, waits[0].now, waits[1..], m, q', dues[1..])
  {
    hide Skips, Messages, Due, AllDisposals, PostsIn, DelaysIn;
    var w, rest, n := waits[0], waits[1..], |dues| - 1;
    later :| Due(q.dmsgq, now, dues[0], later) && DueChain(later + DelaysIn(w), w.now, rest, dues[1..], q'.dmsgq);
    var ready, after := q.msgq + Messages(dues[0]), PostsIn(w) + Arrived(rest, dues[1..]);
    assert q.msgq + Arrived(waits, dues) == ready + after;
    NextQuiet(q.msgq, waits, dues);
    SkipsPast(ready, after, m, q'.msgq);
    forall i | 0 <= i < n - 1 ensures Stopped !in rest[i].gap && !Expired(cmsWait, start, rest[i].now) {
      assert rest[i] == waits[i + 1];
    }
    forall i | 0 <= i < n - 2 ensures Stopped !in rest[i].events { assert rest[i] == waits[i + 1]; }
  }

  lemma NextQuiet(msgq: seq<Message>, waits: seq<Wait>, dues: seq<seq<Timed>>)
    requires 1 < |dues| <= |waits| + 1 && AllDisposals(msgq + Arrived(waits, dues[..|dues| - 1]))
    ensures AllDisposals(msgq + Messages(dues[0]))
    ensures |dues| > 2 ==> AllDisposals(PostsIn(waits[0]) + Arrived(waits[1..], dues[1..][..|dues| - 2]))
  {
    hide Messages, PostsIn, AllDisposals;
    var n := |dues| - 1;
    var front, ready := dues[..n], msgq + Messages(dues[0]);
    if n == 1 {
      assert Arrived(waits, front) == Messages(dues[0]);
    } else {
      assert front[1..] == dues[1..][..n - 1];
      var later := PostsIn(waits[0]) + Arrived(waits[1..], front[1..]);
      assert msgq + Arrived(waits, front) == ready + later;
      DisposalParts(ready, later);
    }
  }

  lemma DisposalParts(one: seq<Message>, two: seq<Message>)
    requires AllDisposals(one + two)
    ensures AllDisposals(one) && AllDisposals(two)
  {
    forall i | 0 <= i < |one| ensures one[i].id == MQID_DISPOSE { assert (one + two)[i] == one[i]; }
    forall i | 0 <= i < |two| ensures two[i].id == MQID_DISPOSE { assert (one + two)[|one| + i] == two[i]; }
  }

  lemma SkipsPast(front: seq<Message>, back: seq<Message>, m: Message, after: seq<Message>)
    requires AllDisposals(front) && Skips(front + back, m, after)
    ensures Skips(back, m, after)
  {
    var all := front + back;
    var k :| IsSkip(all, m, after, k);
    assert forall i :: 0 <= i < |front| ==> all[i].id == MQID_DISPOSE;
    assert all[..k] == front + back[..k - |front|];
    DisposalParts(front, back[..k - |front|]);
    assert all[k + 1..] == back[k - |front| + 1..];
    assert IsSkip(back, m, after, k - |front|);
  }

  lemma GotAtOnce(q: Queues, cmsWait: int, start: nat, now: nat, waits: seq<Wait>, m: Message, q': Queues,
                  due: seq<Timed>)
    requires Scans(q, now, due, Some(m), q')
    ensures GotAfter(q, cmsWait, start, now, waits, m, q', [due])
  {
    hide Skips, Messages, Due, AllDisposals;
    assert Arrived(waits, [due]) == Messages(due);
  }

  /** One wait more at the beginning. */
  lemma GotStep(q: Queues, cmsWait: int, start: nat, now: nat, waits: seq<Wait>, m: Message, q': Queues,
                due: seq<Timed>, scanned: Queues, woken: Queues, dues: seq<seq<Timed>>)
    requires Scans(q, now, due, None, scanned) && waits != [] && !Expired(cmsWait, start, waits[0].now)
    requires !After(scanned, waits[0].gap).stopped
    requires woken == After(After(scanned, waits[0].gap), waits[0].events)
    requires GotAfter(woken, cmsWait, start, waits[0].now, waits[1..], m, q', dues)
    ensures GotAfter(q, cmsWait, start, now, waits, m, q', [due] + dues)
  {
    var w, rest, all := waits[0], waits[1..], [due] + dues;
    GapIs(scanned, w);
    WokenIs(scanned, w);
    hide After, Skips, Messages, Due, AllDisposals, Expired;
    assert all[1..] == dues && all[..|dues|] == ([due] + dues)[..|dues|];
    assert AllDisposals(q.msgq + Messages(due));
    assert DueChain(q.dmsgq, now, waits, all, q'.dmsgq) by { hide Arrived, WentOn, PostsIn; }
    GotStepSkips(q.msgq, waits, due, dues, m, q'.msgq);
    GotStepQuiet(q.msgq, waits, due, dues);
    GotStepOn(q, cmsWait, start, waits, scanned, woken, |dues| - 1);
    hide Arrived, WentOn, PostsIn, DelaysIn, Scans, DueChain;
  }

  lemma GotStepSkips(msgq: seq<Message>, waits: seq<Wait>, due: seq<Timed>, dues: seq<seq<Timed>>, m: Message,
                     after: seq<Message>)
    requires waits != [] && 0 < |dues| <= |waits| && AllDisposals(msgq + Messages(due))
    requires Skips(PostsIn(waits[0]) + Arrived(waits[1..], dues), m, after)
    ensures Skips(msgq + Arrived(waits, [due] + dues), m, after)
  {
    hide Skips, Messages, AllDisposals, PostsIn, Arrived;
    var later := PostsIn(waits[0]) + Arrived(waits[1..], dues);
    ArrivedFirst(waits, due, dues);
    SkipsBehind(msgq + Messages(due), later, m, after);
    assert msgq + (Messages(due) + later) == (msgq + Messages(due)) + later;
  }

  lemma ArrivedFirst(waits: seq<Wait>, due: seq<Timed>, dues: seq<seq<Timed>>)
    requires waits != [] && 0 < |dues| <= |waits|
    ensures Arrived(waits, [due] + dues) == Messages(due) + (PostsIn(waits[0]) + Arrived(waits[1..], dues))
  {
    hide Messages, PostsIn;
    assert ([due] + dues)[1..] == dues;
  }

  lemma EndsSo(m: Option<Message>, scanned: Queues, cmsWait: int, start: nat, waits: seq<Wait>, r: Outcome, q': Queues)
    requires Ends(m, scanned, cmsWait, start, waits, r, q')
    ensures m.Some? ==> r == Got(m.value) && q' == scanned
    ensures m.None? ==> Goes(After(scanned, Gap(waits)), cmsWait, start, waits, r, q')
  {
  }

  lemma GotLater(here: Queues, cmsWait: int, start: nat, waits: seq<Wait>, m: Message, q': Queues)
    requires Goes(here, cmsWait, start, waits, Got(m), q')
    ensures waits != [] && !here.stopped && !Expired(cmsWait, start, waits[0].now)
    ensures Fetches(After(here, waits[0].events), cmsWait, start, waits[0].now, waits[1..], Got(m), q')
  {
  }

  lemma GapIs(scanned: Queues, w: Wait)
    requires !After(scanned, w.gap).stopped
    ensures !scanned.stopped && Stopped !in w.gap
  {
    if scanned.stopped { StoppedStays(scanned, w.gap); }
    hide After;
    AfterAdds(scanned, w.gap);
  }

  lemma WokenIs(scanned: Queues, w: Wait)
    requires !scanned.stopped && Stopped !in w.gap && scanned.msgq == []
    ensures After(After(scanned, w.gap), w.events) ==
            Queues(PostsIn(w), scanned.dmsgq + DelaysIn(w), Stopped in w.events)
  {
    hide After;
    AfterAppend(scanned, w.gap, w.events);
    AfterAdds(scanned, w.gap + w.events);
    assert [] + PostsIn(w) == PostsIn(w);
  }

  lemma GotStepQuiet(msgq: seq<Message>, waits: seq<Wait>, due: seq<Timed>, dues: seq<seq<Timed>>)
    requires waits != [] && 0 < |dues| <= |waits| && AllDisposals(msgq + Messages(due))
    requires |dues| > 1 ==> AllDisposals(PostsIn(waits[0]) + Arrived(waits[1..], dues[..|dues| - 1]))
    ensures AllDisposals(msgq + Arrived(waits, ([due] + dues)[..|dues|]))
  {
    hide PostsIn, Messages;
    var n := |dues| - 1;
    var front := ([due] + dues)[..|dues|];
    assert front == [due] + dues[..n];
    if n > 0 {
      assert front[1..] == dues[..n];
      var later := PostsIn(waits[0]) + Arrived(waits[1..], dues[..n]);
      assert msgq + Arrived(waits, front) == (msgq + Messages(due)) + later;
    }
  }

  lemma GotStepOn(q: Queues, cmsWait: int, start: nat, waits: seq<Wait>, scanned: Queues, woken: Queues, n: nat)
    requires waits != [] && n < |waits| && q.stopped == scanned.stopped == false
    requires Stopped !in waits[0].gap && !Expired(cmsWait, start, waits[0].now)
    requires woken.stopped == (Stopped in waits[0].events)
    requires WentOn(woken, cmsWait, start, waits[1..], n)
    ensures WentOn(q, cmsWait, start, waits, n + 1)
  {
    var rest := waits[1..];
    forall i | 0 <= i < n + 1 ensures Stopped !in waits[i].gap && !Expired(cmsWait, start, waits[i].now) {
      if i > 0 { assert waits[i] == rest[i - 1]; }
    }
    forall i | 0 <= i < n ensures Stopped !in waits[i].events {
      if i > 0 { assert waits[i] == rest[i - 1]; }
    }
  }

  /** The queues hold what came with these events, and delayed messages that were not due at this time. */
  ghost predicate LeftBehind(q: Queues, scan: nat, events: seq<Event>) {
    exists d, stopped :: q == After(Queues([], d, stopped), events) && NotDue(d, scan)
  }

  /** The time of the scan before wait k. */
  function ScanTime(now: nat, waits: seq<Wait>, k: nat): nat
    requires k <= |waits|
  {
    if k == 0 then now else waits[k - 1].now
  }

  /** What came between the last scan and the end of a Get that failed after the scan before wait k. */
  function SinceScan(waits: seq<Wait>, k: nat, r: Outcome): seq<Event>
    requires k <= |waits|
  {
    if k == |waits| then [] else waits[k].gap + if r == TimedOut then waits[k].events else []
  }

  /** When a Get fails: what it leaves, and whether it had to end there. */
  ghost predicate Fails(cmsWait: int, start: nat, now: nat, waits: seq<Wait>, r: Outcome, q': Queues, k: nat) {
    && k <= |waits|
    && LeftBehind(q', ScanTime(now, waits, k), SinceScan(waits, k, r))
    && (r == StopSeen ==> q'.stopped)
    && (r == StillWaiting ==> k == |waits| && !q'.stopped)
    && (r == TimedOut ==> k < |waits| && cmsWait != FOREVER && start + cmsWait <= waits[k].now)
    && (forall i :: 0 <= i < k ==> cmsWait == FOREVER || waits[i].now < start + cmsWait)
  }

  lemma {:induction false} AfterAppend(q: Queues, one: seq<Event>, two: seq<Event>)
    ensures After(q, one + two) == After(After(q, one), two)
    decreases |two|
  {
    if two == [] {
      assert one + two == one;
    } else {
      var n := |two| - 1;
      assert (one + two)[..|one + two| - 1] == one + two[..n];
      AfterAppend(q, one, two[..n]);
    }
  }

  /** A Get fails only after a scan that left no message: what is there came later, or is not due. */
  lemma {:induction false} FailsDrained(q: Queues, cmsWait: int, start: nat, now: nat, waits: seq<Wait>, r: Outcome,
                                        q': Queues)
    requires Fetches(q, cmsWait, start, now, waits, r, q') && !r.Got?
    ensures exists k: nat :: Fails(cmsWait, start, now, waits, r, q', k)
    decreases |waits|
  {
    var due, m, scanned :| Scans(q, now, due, m, scanned) && Ends(m, scanned, cmsWait, start, waits, r, q');
    EndsSo(m, scanned, cmsWait, start, waits, r, q');
    assert m == None && NotDue(scanned.dmsgq, now) && scanned.msgq == [];
    hide Scans, Ends, After, NotDue;
    FirstFailure(cmsWait, start, now, waits, scanned, r, q');
  }

  lemma FirstFailure(cmsWait: int, start: nat, now: nat, waits: seq<Wait>, scanned: Queues, r: Outcome, q': Queues)
    requires NotDue(scanned.dmsgq, now) && scanned.msgq == [] && !r.Got?
    requires Goes(After(scanned, Gap(waits)), cmsWait, start, waits, r, q')
    ensures exists k: nat :: Fails(cmsWait, start, now, waits, r, q', k)
    decreases |waits|, 0
  {
    hide After, NotDue, Fetches;
    var here := After(scanned, Gap(waits));
    if here.stopped || waits == [] {
      assert SinceScan(waits, 0, r) == Gap(waits);
      FailsHere(cmsWait, start, now, waits, scanned, r, q');
    } else if Expired(cmsWait, start, waits[0].now) {
      AfterAppend(scanned, waits[0].gap, waits[0].events);
      FailsHere(cmsWait, start, now, waits, scanned, r, q');
    } else {
      var then_, rest := waits[0].now, waits[1..];
      var woken := After(here, waits[0].events);
      assert Fetches(woken, cmsWait, start, then_, rest, r, q');
      hide Goes, Fails;
      FailsDrained(woken, cmsWait, start, then_, rest, r, q');
      var k: nat :| Fails(cmsWait, start, then_, rest, r, q', k);
      FailsLater(cmsWait, start, now, waits, r, q', k);
    }
  }

  lemma FailsHere(cmsWait: int, start: nat, now: nat, waits: seq<Wait>, scanned: Queues, r: Outcome, q': Queues)
    requires NotDue(scanned.dmsgq, now) && scanned.msgq == []
    requires q' == After(scanned, SinceScan(waits, 0, r))
    requires r == StopSeen ==> q'.stopped
    requires r == StillWaiting ==> waits == [] && !q'.stopped
    requires r == TimedOut ==> waits != [] && Expired(cmsWait, start, waits[0].now)
    ensures Fails(cmsWait, start, now, waits, r, q', 0)
  {
    hide After, NotDue, SinceScan;
    assert scanned == Queues([], scanned.dmsgq, scanned.stopped);
    assert LeftBehind(q', now, SinceScan(waits, 0, r));
  }

  lemma FailsLater(cmsWait: int, start: nat, now: nat, waits: seq<Wait>, r: Outcome, q': Queues, k: nat)
    requires waits != [] && !Expired(cmsWait, start, waits[0].now)
    requires Fails(cmsWait, start, waits[0].now, waits[1..], r, q', k)
    ensures Fails(cmsWait, start, now, waits, r, q', k + 1)
  {
    hide LeftBehind;
    var rest := waits[1..];
    assert SinceScan(waits, k + 1, r) == SinceScan(rest, k, r);
    assert ScanTime(now, waits, k + 1) == ScanTime(waits[0].now, rest, k);
    forall i | 0 <= i < k + 1 ensures !Expired(cmsWait, start, waits[i].now) {
      if i > 0 { assert waits[i] == rest[i - 1]; }
    }
  }

  lemma FetchesGot(q: Queues, cmsWait: int, start: nat, now: nat, waits: seq<Wait>, m: Message, q': Queues)
    requires exists due :: Scans(q, now, due, Some(m), q')
    ensures Fetches(q, cmsWait, start, now, waits, Got(m), q')
  {
    hide Scans, Goes;
    var due :| Scans(q, now, due, Some(m), q');
    assert Ends(Some(m), q', cmsWait, start, waits, Got(m), q');
  }

  /** After a scan that found nothing, and what other threads did before the test for a stop. */
  lemma FetchesGoes(q: Queues, cmsWait: int, start: nat, now: nat, waits: seq<Wait>, scanned: Queues)
    requires exists due :: Scans(q, now, due, None, scanned)
    ensures var here := After(scanned, Gap(waits));
      && (here.stopped ==> Fetches(q, cmsWait, start, now, waits, StopSeen, here))
      && (!here.stopped && waits == [] ==> Fetches(q, cmsWait, start, now, waits, StillWaiting, here))
      && (!here.stopped && waits != [] ==>
            var woken, then_ := After(here, waits[0].events), waits[0].now;
            if Expired(cmsWait, start, then_) then Fetches(q, cmsWait, start, now, waits, TimedOut, woken)
            else forall r, q' :: Fetches(woken, cmsWait, start, then_, waits[1..], r, q') ==>
                                 Fetches(q, cmsWait, start, now, waits, r, q'))
  {
    hide Scans, After;
    var due :| Scans(q, now, due, None, scanned);
    forall r, q' | Goes(After(scanned, Gap(waits)), cmsWait, start, waits, r, q')
      ensures Fetches(q, cmsWait, start, now, waits, r, q')
    {
      assert Ends(None, scanned, cmsWait, start, waits, r, q');
    }
    hide Fetches;
  }

  /** due has been moved, and the others are still waiting. */
  ghost predicate Moving(all: seq<Timed>, now: nat, due: seq<Timed>, waiting: seq<Timed>) {
    && multiset(all) == multiset(due) + multiset(waiting)
    && (forall i :: 0 <= i < |due| ==> due[i].trigger <= now)
    && (forall i, j :: 0 <= i < j < |due| ==> due[i].trigger <= due[j].trigger)
    && (forall i, k :: 0 <= i < |due| && 0 <= k < |waiting| ==> due[i].trigger <= waiting[k].trigger)
  }

  /** These messages have become ready at this time. */
  predicate Moved(h: History, msgq: seq<Message>, now: nat, due: seq<Timed>, h': History, msgq': seq<Message>) {
    && h' == h.(clock := now, readyLog := h.readyLog + due, readyAt := h'.readyAt)
    && msgq' == msgq + Messages(due)
  }

  lemma MovedNext(h: History, msgq: seq<Message>, now: nat, due: seq<Timed>, h': History, msgq': seq<Message>, t: Timed)
    requires Moved(h, msgq, now, due, h', msgq')
    ensures Moved(h, msgq, now, due + [t], LogReady(h', t), msgq' + [t.msg])
  {
    MessagesAppend(due, t);
    hide Messages;
    assert h.readyLog + (due + [t]) == (h.readyLog + due) + [t];
    assert msgq + (Messages(due) + [t.msg]) == (msgq + Messages(due)) + [t.msg];
  }

  lemma MovingNext(all: seq<Timed>, now: nat, due: seq<Timed>, waiting: seq<Timed>, i: nat)
    requires Moving(all, now, due, waiting) && IsLeast(waiting, i) && waiting[i].trigger <= now
    ensures Moving(all, now, due + [waiting[i]], waiting[..i] + waiting[i + 1..])
  {
    RemoveOne(waiting, i);
  }

  lemma MovingEnds(all: seq<Timed>, now: nat, due: seq<Timed>, waiting: seq<Timed>, i: nat)
    requires Moving(all, now, due, waiting)
    requires waiting == [] || (IsLeast(waiting, i) && now < waiting[i].trigger)
    ensures Due(all, now, due, waiting)
  {
  }

  // ---------------------------------------------------------------------
  // The queue
  // ---------------------------------------------------------------------

  class Queue {
    var msgq: seq<Message>
    var dmsgq: seq<Timed>        // the priority queue, in no particular order
    var peek: Option<Message>    // msgPeek_ while fPeekKeep_ is set
    var stopped: bool
    ghost var h: History

    function Peeked(): seq<Message>
      reads this`peek
    {
      if peek.Some? then [peek.value] else []
    }

    ghost predicate Valid()
      reads this`msgq, this`dmsgq, this`peek, this`h
    {
      Accounts(h, Peeked(), msgq, dmsgq)
    }

    constructor ()
      ensures Valid() && !stopped && h == EMPTY && msgq == [] && dmsgq == [] && peek == None
    {
      msgq, dmsgq, peek, stopped, h := [], [], None, false, EMPTY;
    }

    method Post(msg: Message)
      requires Valid()
      modifies this`msgq, this`h
      ensures Valid()
      ensures stopped ==> msgq == old(msgq) && h == old(h)
      ensures !stopped ==> msgq == old(msgq) + [msg] && h == LogPost(old(h), msg)
    {
      hide Accounts;
      if stopped {
        return;
      }
      PostKeeps(h, Peeked(), msgq, dmsgq, msg);
      msgq := msgq + [msg];
      h := LogPost(h, msg);
    }

    method PostDelayed(delay: nat, now: nat, msg: Message)
      requires Valid()
      modifies this`dmsgq, this`h
      ensures Valid()
      ensures stopped ==> dmsgq == old(dmsgq) && h == old(h)
      ensures !stopped ==> dmsgq == old(dmsgq) + [Timed(now + delay, msg)]
      ensures !stopped ==> h == old(h).(accepted := old(h).accepted + multiset{Timed(now + delay, msg)})
    {
      hide Accounts;
      if stopped {
        return;
      }
      var t := Timed(now + delay, msg);
      DelayKeeps(h, Peeked(), msgq, dmsgq, t);
      dmsgq := dmsgq + [t];
      h := h.(accepted := h.accepted + multiset{t});
    }

    method Stop()
      modifies this`stopped
      ensures stopped
    {
      stopped := true;
    }

    method Restart()
      modifies this`stopped
      ensures !stopped
    {
      stopped := false;
    }

    /** An element of the priority queue with the least trigger; ties are broken arbitrarily. */
    method Top() returns (i: nat)
      requires dmsgq != []
      ensures IsLeast(dmsgq, i)
    {
      HasLeast(dmsgq);
      i :| 0 <= i < |dmsgq| && IsLeast(dmsgq, i);
    }

    /** Moves one message from the delayed to the ready messages. */
    method MakeReady(i: nat)
      requires Valid() && i < |dmsgq| && dmsgq[i].trigger <= h.clock
      modifies this`msgq, this`dmsgq, this`h
      ensures Valid() && msgq == old(msgq) + [old(dmsgq)[i].msg]
      ensures dmsgq == old(dmsgq)[..i] + old(dmsgq)[i + 1..] && h == LogReady(old(h), old(dmsgq)[i])
    {
      hide Accounts;
      ReadyKeeps(h, Peeked(), msgq, dmsgq, i);
      var t := dmsgq[i];
      msgq := msgq + [t.msg];
      dmsgq := dmsgq[..i] + dmsgq[i + 1..];
      h := LogReady(h, t);
    }

    /** Moves the delayed messages whose time has come to the ready queue, soonest first. */
    method MoveTriggered(now: nat) returns (delayNext: int, ghost due: seq<Timed>)
      requires Valid() && h.clock <= now
      modifies this`msgq, this`dmsgq, this`h
      ensures Valid() && Due(old(dmsgq), now, due, dmsgq) && Moved(old(h), old(msgq), now, due, h, msgq)
      ensures NextDue(dmsgq, now, delayNext)
    {
      hide Accounts, Due;
      TimePasses(h, Peeked(), msgq, dmsgq, now);
      h := h.(clock := now);
      delayNext, due := FOREVER, [];
      while dmsgq != []
        invariant Valid() && Moved(old(h), old(msgq), now, due, h, msgq) && delayNext == FOREVER
        invariant Moving(old(dmsgq), now, due, dmsgq)
        decreases |dmsgq|
      {
        var i := Top();
        var top := dmsgq[i];
        if now < top.trigger {
          delayNext := top.trigger - now;
          MovingEnds(old(dmsgq), now, due, dmsgq, i);
          return;
        }
        MovingNext(old(dmsgq), now, due, dmsgq, i);
        MovedNext(old(h), old(msgq), now, due, h, msgq, top);
        assert top.trigger <= h.clock;
        hide Moving, Moved, LogReady;
        MakeReady(i);
        due := due + [top];
      }
      MovingEnds(old(dmsgq), now, due, dmsgq, 0);
    }

    /** The first ready message that is not a disposal; disposals on the way are carried out. */
    method PopReady() returns (r: Option<Message>)
      requires Valid() && peek == None
      modifies this`msgq, this`h
      ensures h == old(h).(disposed := h.disposed)
      ensures r.Some? ==> Accounts(h, [r.value], msgq, dmsgq)
      ensures r.Some? ==> Skips(old(msgq), r.value, msgq)
      ensures r.None? ==> Valid() && msgq == [] && AllDisposals(old(msgq))
    {
      hide Accounts;
      ghost var k := 0;
      while msgq != []
        invariant Valid() && h == old(h).(disposed := h.disposed)
        invariant k <= |old(msgq)| && msgq == old(msgq)[k..]
        invariant forall i :: 0 <= i < k ==> old(msgq)[i].id == MQID_DISPOSE
        decreases |msgq|
      {
        var m := msgq[0];
        PopKeeps(h, msgq, dmsgq);
        msgq := msgq[1..];
        if m.id != MQID_DISPOSE {
          assert IsSkip(old(msgq), m, msgq, k);
          return Some(m);
        }
        h := h.(disposed := h.disposed + multiset{m});
        k := k + 1;
      }
      r := None;
    }

    function Here(): Queues
      reads this`msgq, this`dmsgq, this`stopped
    {
      Queues(msgq, dmsgq, stopped)
    }

    /** Nothing is returned or cleared; logs only grow. */
    twostate predicate Forward()
      reads this`h
    {
      && h == old(h).(accepted := h.accepted, readyLog := h.readyLog, readyAt := h.readyAt,
                      disposed := h.disposed, clock := h.clock)
      && old(h).readyLog <= h.readyLog && old(h).clock <= h.clock
    }

    /** What the lock protects in Get: due messages become ready, and the first message is taken. */
    method Scan(now: nat) returns (r: Option<Message>, delayNext: int)
      requires Valid() && peek == None && h.clock <= now
      modifies this`msgq, this`dmsgq, this`h
      ensures Forward() && h.clock == now
      ensures exists due :: Scans(old(Here()), now, due, r, Here())
      ensures if r.Some? then Accounts(h, [r.value], msgq, dmsgq) else Valid()
      ensures NextDue(dmsgq, now, delayNext)
    {
      hide Accounts, Due, Skips, Messages;
      ghost var due;
      delayNext, due := MoveTriggered(now);
      r := PopReady();
      assert Scans(old(Here()), now, due, r, Here());
    }

    /** How long to wait: not past the time that was asked for, nor past the next delayed message. */
    static method WaitTime(cmsWait: int, elapsed: int, delayNext: int, ghost delayed: seq<Timed>, ghost now: nat)
      returns (cmsNext: int)
      requires NextDue(delayed, now, delayNext)
      ensures cmsNext == FOREVER <==> cmsWait == FOREVER && delayed == []
      ensures cmsNext != FOREVER ==> 0 <= cmsNext
      ensures cmsNext != FOREVER ==> forall t :: t in delayed ==> now + cmsNext <= t.trigger
      ensures cmsWait != FOREVER ==> cmsNext == 0 || cmsNext <= cmsWait - elapsed
      ensures cmsNext == 0 ==> cmsWait != FOREVER && cmsWait <= elapsed
      ensures cmsNext > 0 ==>
        || (cmsWait != FOREVER && cmsNext == cmsWait - elapsed)
        || exists t :: t in delayed && now + cmsNext == t.trigger
    {
      if cmsWait == FOREVER {
        cmsNext := delayNext;
      } else {
        cmsNext := cmsWait - elapsed;
        if cmsNext < 0 {
          cmsNext := 0;
        }
        if delayNext != FOREVER && delayNext < cmsNext {
          cmsNext := delayNext;
        }
      }
    }

    /** The part of Get behind the peek: scans the queues, waits, and scans again. */
    method Fetch(cmsWait: int, start: nat, waits: seq<Wait>) returns (r: Outcome)
      requires Valid() && peek == None && h.clock <= start
      requires Clocked(start, waits)
      modifies this`msgq, this`dmsgq, this`stopped, this`h
      ensures Forward() && Fetches(old(Here()), cmsWait, start, start, waits, r, Here())
      ensures if r.Got? then Accounts(h, [r.msg], msgq, dmsgq) else Valid()
    {
      hide Accounts, Fetches, Ends, Goes, Scans;
      var now, n := start, 0;
      while true
        invariant Valid() && n <= |waits| && h.clock <= now && Clocked(now, waits[n..]) && Forward()
        invariant forall r, q' :: Fetches(Here(), cmsWait, start, now, waits[n..], r, q') ==>
          Fetches(old(Here()), cmsWait, start, start, waits, r, q')
        decreases |waits| - n
      {
        ghost var q := Here();
        var ready, delayNext := Scan(now);
        ghost var scanned := Here();
        if ready.Some? {
          FetchesGot(q, cmsWait, start, now, waits[n..], ready.value, scanned);
          return Got(ready.value);
        }
        if n < |waits| {
          Others(waits[n].gap);
        }
        FetchesGoes(q, cmsWait, start, now, waits[n..], scanned);
        if stopped {
          return StopSeen;
        }
        if n == |waits| {
          return StillWaiting;
        }
        var cmsNext := WaitTime(cmsWait, now - start, delayNext, scanned.dmsgq, now);
        Others(waits[n].events);
        now, n := waits[n].now, n + 1;
        if cmsWait != FOREVER && now - start >= cmsWait {
          return TimedOut;
        }
      }
    }

    /** Other threads. */
    method Others(events: seq<Event>)
      requires Valid()
      modifies this`msgq, this`dmsgq, this`stopped, this`h
      ensures Valid() && Forward() && h.clock == old(h).clock && Here() == After(old(Here()), events)
    {
      hide Accounts;
      var i := 0;
      while i < |events|
        invariant Valid() && Forward() && h.clock == old(h).clock
        invariant i <= |events| && Here() == After(old(Here()), events[..i])
      {
        AfterNext(old(Here()), events, i);
        match events[i] {
          case Posted(msg) => Post(msg);
          case PostedDelayed(delay, at, msg) => PostDelayed(delay, at, msg);
          case Stopped => Stop();
        }
        i := i + 1;
      }
      assert events[..|events|] == events;
    }

    /**
      The next message: the peeked one if there is one, else the first that is
      ready, after waiting if need be.
    */
    method Get(cmsWait: int, start: nat, waits: seq<Wait>) returns (r: Outcome)
      requires Valid() && h.clock <= start && Clocked(start, waits)
      modifies this`msgq, this`dmsgq, this`peek, this`stopped, this`h
      ensures Valid() && peek == None
      ensures h.returned == if r.Got? then old(h).returned + [r.msg] else old(h).returned
      ensures h.cleared == old(h).cleared && h.clearedDelayed == old(h).clearedDelayed
      ensures old(peek).Some? ==> r == Got(old(peek).value) && Here() == old(Here())
      ensures old(peek).None? ==> Fetches(old(Here()), cmsWait, start, start, waits, r, Here())
    {
      hide Accounts, Fetches;
      if peek.Some? {
        r := Got(peek.value);
        peek := None;
        ReturnKeeps(h, r.msg, msgq, dmsgq);
        h := h.(returned := h.returned + [r.msg]);
        return;
      }
      r := Fetch(cmsWait, start, waits);
      if r.Got? {
        ReturnKeeps(h, r.msg, msgq, dmsgq);
        h := h.(returned := h.returned + [r.msg]);
      }
    }

    /** Like Get, but the message stays the next one to be returned. */
    method Peek(cmsWait: int, start: nat, waits: seq<Wait>) returns (r: Outcome)
      requires Valid() && h.clock <= start && Clocked(start, waits)
      modifies this`msgq, this`dmsgq, this`peek, this`stopped, this`h
      ensures Valid() && Forward()
      ensures peek == if r.Got? then Some(r.msg) else None
      ensures old(peek).Some? ==> peek == old(peek) && Here() == old(Here()) && h == old(h)
      ensures old(peek).None? ==> Fetches(old(Here()), cmsWait, start, start, waits, r, Here())
    {
      hide Accounts, Fetches;
      if peek.Some? {
        return Got(peek.value);
      }
      r := Fetch(cmsWait, start, waits);
      if r.Got? {
        peek := Some(r.msg);
      }
    }

    /** Deletes the matching messages from all three places, and no others. */
    method Clear(handler: Option<nat>, id: nat)
      requires Valid()
      modifies this`msgq, this`dmsgq, this`peek, this`h
      ensures Valid()
      ensures peek == if old(peek).Some? && Matches(handler, id, old(peek).value) then None else old(peek)
      ensures msgq == Kept(old(msgq), handler, id)
      ensures NoMatch(dmsgq, handler, id) && SameOthers(old(dmsgq), multiset(dmsgq), handler, id)
      ensures h == old(h).(cleared := h.cleared, clearedDelayed := h.clearedDelayed)
      // Nothing that is left has the handler (any, if none is given) and the id (any, for MQID_ANY) ...
      ensures forall m :: m in Peeked() + msgq || m in Messages(dmsgq) ==>
                (handler.Some? && m.handler != handler) || (id != MQID_ANY && m.id != id)
      // ... and what differs in one of them is where it was, as often as before.
      ensures forall m: Message :: (handler.Some? && m.handler != handler) || (id != MQID_ANY && m.id != id) ==>
                && multiset(Peeked())[m] == multiset(old(Peeked()))[m]
                && multiset(msgq)[m] == multiset(old(msgq))[m]
      ensures forall t: Timed ::
                (handler.Some? && t.msg.handler != handler) || (id != MQID_ANY && t.msg.id != id) ==>
                multiset(dmsgq)[t] == multiset(old(dmsgq))[t]
    {
      hide Accounts;
      if peek.Some? && Matches(handler, id, peek.value) {
        ClearHandKeeps(h, peek.value, msgq, dmsgq);
        h := h.(cleared := h.cleared + multiset{peek.value});
        peek := None;
      }
      ClearReady(handler, id);
      ClearDelayed(handler, id);
      KeptMeans(old(msgq), handler, id);
      hide Valid, Kept;
      forall m | m in Messages(dmsgq)
        ensures (handler.Some? && m.handler != handler) || (id != MQID_ANY && m.id != id)
      {
        var i :| 0 <= i < |Messages(dmsgq)| && Messages(dmsgq)[i] == m;
        assert m == dmsgq[i].msg;
      }
    }

    /** One turn of the ready queue: every message is taken from the front and put back unless it matches. */
    method ClearReady(handler: Option<nat>, id: nat)
      requires Valid()
      modifies this`msgq, this`h
      ensures Valid() && msgq == Kept(old(msgq), handler, id)
      ensures h == old(h).(cleared := h.cleared)
    {
      hide Accounts, Kept;
      var c: nat := |msgq|;
      ghost var all, n := msgq, 0;
      StartTurn(all, handler, id);
      while c != 0
        invariant c == |all| - n && n <= |all|
        invariant Turning(all, n, handler, id)
        invariant h == old(h).(cleared := h.cleared)
      {
        ClearFront(handler, id, all, n);
        c, n := c - 1, n + 1;
      }
      EndTurn(all, handler, id);
    }

    /** n messages have been taken from the front, and those that stay are at the back. */
    ghost predicate Turning(all: seq<Message>, n: nat, handler: Option<nat>, id: nat)
      reads this
    {
      && n <= |all|
      && msgq == all[n..] + Kept(all[..n], handler, id)
      && Accounts(h, Peeked(), Kept(all[..n], handler, id) + all[n..], dmsgq)
    }

    lemma StartTurn(all: seq<Message>, handler: Option<nat>, id: nat)
      requires Valid() && all == msgq
      ensures Turning(all, 0, handler, id)
    {
      hide Accounts;
      var none := Kept(all[..0], handler, id);
      assert none == [];
      assert all[0..] + none == all && none + all[0..] == all;
    }

    lemma EndTurn(all: seq<Message>, handler: Option<nat>, id: nat)
      requires Turning(all, |all|, handler, id)
      ensures Valid() && msgq == Kept(all, handler, id)
    {
      hide Accounts, Kept;
      assert all[..|all|] == all && all[|all|..] == [];
      var kept := Kept(all, handler, id);
      assert kept + [] == kept && [] + kept == kept;
    }

    method ClearFront(handler: Option<nat>, id: nat, ghost all: seq<Message>, ghost n: nat)
      requires n < |all| && Turning(all, n, handler, id)
      modifies this`msgq, this`h
      ensures Turning(all, n + 1, handler, id)
      ensures h == old(h).(cleared := h.cleared)
    {
      hide Accounts, Kept, Matches;
      ghost var back, rest := Kept(all[..n], handler, id), all[n + 1..];
      KeptNext(all, n, handler, id);
      var msg := msgq[0];
      assert msg == all[n] && all[n..] == [msg] + rest;
      msgq := msgq[1..];
      assert msgq == rest + back;
      if Matches(handler, id, msg) {
        assert back + all[n..] == back + [msg] + rest;
        ClearReadyKeeps(h, Peeked(), back, msg, rest, dmsgq);
        h := h.(cleared := h.cleared + multiset{msg});
        assert back + [] == back;
      } else {
        assert back + all[n..] == (back + [msg]) + rest;
        msgq := msgq + [msg];
        assert msgq == rest + (back + [msg]);
      }
    }

    /** The priority queue is emptied into a plain one, and filled again from it. */
    method ClearDelayed(handler: Option<nat>, id: nat)
      requires Valid()
      modifies this`dmsgq, this`h
      ensures Valid()
      ensures NoMatch(dmsgq, handler, id) && SameOthers(old(dmsgq), multiset(dmsgq), handler, id)
      ensures h == old(h).(clearedDelayed := h.clearedDelayed)
    {
      hide Accounts, NoMatch, SameOthers, Took;
      StartTook(dmsgq, handler, id);
      var kept: seq<Timed> := [];
      assert [] + dmsgq == dmsgq;
      while dmsgq != []
        invariant Accounts(h, Peeked(), msgq, kept + dmsgq)
        invariant NoMatch(kept, handler, id)
        invariant SameOthers(old(dmsgq), multiset(kept) + multiset(dmsgq), handler, id)
        invariant h == old(h).(clearedDelayed := h.clearedDelayed)
        decreases |dmsgq|
      {
        ghost var kept0, dmsgq0 := kept, dmsgq;
        kept := ClearTop(handler, id, kept, kept + dmsgq);
        ghost var t :| Took(kept0, dmsgq0, kept, dmsgq, t, handler, id);
        TookKeeps(old(dmsgq), kept0, dmsgq0, kept, dmsgq, t, handler, id);
      }
      assert kept + [] == kept && multiset(kept) + multiset(dmsgq) == multiset(kept);
      dmsgq := kept;
    }

    /** One turn: the earliest message is deleted or kept aside. */
    method ClearTop(handler: Option<nat>, id: nat, kept: seq<Timed>, ghost all: seq<Timed>) returns (kept': seq<Timed>)
      requires Accounts(h, Peeked(), msgq, all) && all == kept + dmsgq && dmsgq != []
      modifies this`dmsgq, this`h
      ensures Accounts(h, Peeked(), msgq, kept' + dmsgq) && |dmsgq| < |old(dmsgq)|
      ensures h == old(h).(clearedDelayed := h.clearedDelayed)
      ensures exists t :: Took(kept, old(dmsgq), kept', dmsgq, t, handler, id)
    {
      hide Accounts, Matches;
      var i := Top();
      var top := dmsgq[i];
      var rest := dmsgq[..i] + dmsgq[i + 1..];
      assert dmsgq == dmsgq[..i] + [top] + dmsgq[i + 1..];
      assert multiset(dmsgq) == multiset(rest) + multiset{top};
      if Matches(handler, id, top.msg) {
        assert kept + dmsgq == (kept + dmsgq[..i]) + [top] + dmsgq[i + 1..];
        ClearDelayedKeeps(h, Peeked(), msgq, kept + dmsgq[..i], top, dmsgq[i + 1..]);
        assert (kept + dmsgq[..i]) + dmsgq[i + 1..] == kept + rest;
        h := h.(clearedDelayed := h.clearedDelayed + multiset{top});
        kept' := kept;
      } else {
        DelayedPermuted(h, Peeked(), msgq, all, (kept + [top]) + rest);
        kept' := kept + [top];
      }
      dmsgq := rest;
      assert Took(kept, old(dmsgq), kept', dmsgq, top, handler, id);
    }
  }

  /** The times at which the waits end do not run backwards. */
  predicate Clocked(now: nat, waits: seq<Wait>)
    decreases |waits|
  {
    waits == [] || (now <= waits[0].now && Clocked(waits[0].now, waits[1..]))
  }
}
