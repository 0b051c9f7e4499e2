/** The message dispatcher as a machine of atomic steps: one for each region its mutex protects. */
module Dispatch {

  datatype Msg = Msg(id: nat, queue: string)

  datatype Queue = Queue(name: string, messages: seq<Msg>)

  /** A worker is about to look for work, waits for a signal, dispatches a message of a queue, or is gone. */
  datatype Worker = Running | Blocked | Busy(queue: string) | Exited

  /** The lists, and what was scheduled and what was taken for dispatch so far. */
  datatype State = State(scheduled: seq<Queue>, pending: seq<Queue>, stop: bool, workers: map<nat, Worker>, sent: seq<Msg>, taken: seq<Msg>)

  // ---- the steps ----

  predicate HasName(queues: seq<Queue>, name: string) {
    exists i :: 0 <= i < |queues| && queues[i].name == name
  }

  /** The queues with a message at the end of one of them. */
  predicate Pushed(before: seq<Queue>, m: Msg, after: seq<Queue>) {
    && |after| == |before|
    && exists i :: 0 <= i < |before| && before[i].name == m.queue && after == before[i := Queue(m.queue, before[i].messages + [m])]
  }

  /** Workers change from blocked to running only; a signal wakes at least one if one is blocked. */
  predicate Woken(before: map<nat, Worker>, after: map<nat, Worker>) {
    && before.Keys == after.Keys
    && forall t :: t in before ==> after[t] == before[t] || (before[t].Blocked? && after[t].Running?)
  }

  predicate Signalled(before: map<nat, Worker>, after: map<nat, Worker>) {
    && Woken(before, after)
    && ((exists t :: t in before && before[t].Blocked?) ==> exists t :: t in before && before[t].Blocked? && after[t].Running?)
  }

  /** A message goes to the queue of its name, wherever that is, or to a new one, and then a signal is given. */
  predicate Schedule(s: State, m: Msg, s': State) {
    && s'.stop == s.stop && s'.sent == s.sent + [m] && s'.taken == s.taken
    && if HasName(s.scheduled, m.queue) then
        Pushed(s.scheduled, m, s'.scheduled) && s'.pending == s.pending && s'.workers == s.workers
      else if HasName(s.pending, m.queue) then
        Pushed(s.pending, m, s'.pending) && s'.scheduled == s.scheduled && s'.workers == s.workers
      else
        && s'.scheduled == s.scheduled + [Queue(m.queue, [m])] && s'.pending == s.pending
        && Signalled(s.workers, s'.workers)
  }

  /** A running worker waits, leaves, or takes the first message of the first queue. */
  predicate Take(s: State, t: nat, s': State) {
    && t in s.workers && s.workers[t].Running?
    && if |s.scheduled| == 0 then
        s' == s.(workers := s.workers[t := if s.stop then Exited else Blocked])
      else
        var q := s.scheduled[0];
        && |q.messages| > 0
        && s' == s.(scheduled := s.scheduled[1..], pending := s.pending + [q.(messages := q.messages[1..])],
                    workers := s.workers[t := Busy(q.name)], taken := s.taken + [q.messages[0]])
  }

  /** A worker done with its message gives the queue back, behind the others, unless it is empty. */
  predicate Finish(s: State, t: nat, s': State) {
    && t in s.workers && s.workers[t].Busy?
    && exists i :: 0 <= i < |s.pending| && s.pending[i].name == s.workers[t].queue && s' == GivenBack(s, t, i)
  }

  function GivenBack(s: State, t: nat, i: nat): State
    requires i < |s.pending|
  {
    s.(pending := s.pending[..i] + s.pending[i + 1..], workers := s.workers[t := Running],
       scheduled := if |s.pending[i].messages| == 0 then s.scheduled else s.scheduled + [s.pending[i]])
  }

  /** Everybody is woken. */
  predicate Stop(s: State, s': State) {
    && s' == s.(stop := true, workers := s'.workers) && Woken(s.workers, s'.workers)
    && forall t :: t in s'.workers ==> !s'.workers[t].Blocked?
  }

  /** A wait may end without a signal. */
  predicate WakeUp(s: State, t: nat, s': State) {
    t in s.workers && s.workers[t].Blocked? && s' == s.(workers := s.workers[t := Running])
  }

  predicate Start(s: State) {
    s.scheduled == [] && s.pending == [] && !s.stop && s.sent == [] && s.taken == [] && forall t :: t in s.workers ==> s.workers[t].Running?
  }

  datatype Action = DoSchedule(m: Msg) | DoTake(t: nat) | DoFinish(t: nat) | DoStop | DoWakeUp(t: nat)

  predicate Step(s: State, a: Action, s': State) {
    match a
    case DoSchedule(m) => Schedule(s, m, s')
    case DoTake(t) => Take(s, t, s')
    case DoFinish(t) => Finish(s, t, s')
    case DoStop => Stop(s, s')
    case DoWakeUp(t) => WakeUp(s, t, s')
  }

  // ---- what every step keeps ----

  predicate DistinctNames(queues: seq<Queue>) {
    forall i, j :: 0 <= i < j < |queues| ==> queues[i].name != queues[j].name
  }

  ghost predicate NoneInBoth(a: seq<Queue>, b: seq<Queue>) {
    forall name :: HasName(a, name) ==> !HasName(b, name)
  }

  /** The messages of a queue name, in order. */
  function Of(msgs: seq<Msg>, name: string): seq<Msg> {
    if |msgs| == 0 then []
    else
      var n := |msgs| - 1;
      Of(msgs[..n], name) + if msgs[n].queue == name then [msgs[n]] else []
  }

  /** The messages of a name that wait in some queues. */
  function Waiting(queues: seq<Queue>, name: string): seq<Msg> {
    if |queues| == 0 then []
    else if queues[0].name == name then queues[0].messages
    else Waiting(queues[1..], name)
  }

  /** What waits for a name: it is in one list at most. */
  function Queued(s: State, name: string): seq<Msg> {
    if HasName(s.scheduled, name) then Waiting(s.scheduled, name) else Waiting(s.pending, name)
  }

  /** What was scheduled for a name is what was taken of it, in the same order, and then what waits. */
  ghost predicate Fifo(s: State) {
    forall name :: Of(s.sent, name) == Of(s.taken, name) + Queued(s, name)
  }

  ghost function BlockedOf(workers: map<nat, Worker>): set<nat> { set t | t in workers && workers[t].Blocked? }

  ghost function BusyOf(workers: map<nat, Worker>): set<nat> { set t | t in workers && workers[t].Busy? }

  predicate Serving(workers: map<nat, Worker>, name: string) {
    exists t :: t in workers && workers[t] == Busy(name)
  }

  /** No two workers are busy with messages of one name. */
  predicate OneEach(workers: map<nat, Worker>) {
    forall t, u :: t in workers && u in workers && t != u && workers[t].Busy? ==> workers[t] != workers[u]
  }

  /** Each pending queue has one worker, and each busy worker a pending queue of its own. */
  ghost predicate Served(pending: seq<Queue>, workers: map<nat, Worker>) {
    (forall name :: HasName(pending, name) <==> Serving(workers, name)) && OneEach(workers)
  }

  /** There is an awake worker for every queue with work, or all workers are awake. */
  ghost predicate Lively(s: State) {
    && |BusyOf(s.workers)| == |s.pending|
    && (BlockedOf(s.workers) != {} ==> |s.scheduled| + |s.pending| + |BlockedOf(s.workers)| <= |s.workers|)
  }

  predicate Stopping(s: State) {
    && (s.stop ==> forall t :: t in s.workers ==> !s.workers[t].Blocked?)
    && (!s.stop ==> forall t :: t in s.workers ==> !s.workers[t].Exited?)
  }

  predicate NoneEmpty(queues: seq<Queue>) {
    forall i :: 0 <= i < |queues| ==> |queues[i].messages| > 0
  }

  ghost predicate Inv(s: State) {
    && DistinctNames(s.scheduled) && DistinctNames(s.pending) && NoneInBoth(s.scheduled, s.pending)
    && NoneEmpty(s.scheduled) && Served(s.pending, s.workers) && Fifo(s) && Lively(s) && Stopping(s)
  }

  // ---- queues and names ----

  lemma {:induction false} WaitingAt(queues: seq<Queue>, i: nat)
    requires DistinctNames(queues) && i < |queues|
    ensures Waiting(queues, queues[i].name) == queues[i].messages && HasName(queues, queues[i].name)
  {
    if i > 0 {
      WaitingAt(queues[1..], i - 1);
    }
  }

  lemma {:induction false} NotWaiting(queues: seq<Queue>, name: string)
    requires !HasName(queues, name)
    ensures Waiting(queues, name) == []
  {
    if |queues| > 0 {
      assert queues[0].name != name;
      forall i | 0 <= i < |queues[1..]| ensures queues[1..][i].name != name {
        assert queues[i + 1].name != name;
      }
      NotWaiting(queues[1..], name);
    }
  }

  /** What waits for a name depends on the queue of that name alone. */
  lemma SameWaiting(a: seq<Queue>, b: seq<Queue>, name: string)
    requires DistinctNames(a) && DistinctNames(b)
    requires forall q: Queue :: q.name == name ==> (q in a <==> q in b)
    ensures HasName(a, name) <==> HasName(b, name)
    ensures Waiting(a, name) == Waiting(b, name)
  {
    if HasName(a, name) {
      var i :| 0 <= i < |a| && a[i].name == name;
      assert a[i] in b;
      var j :| 0 <= j < |b| && b[j] == a[i];
      WaitingAt(a, i);
      WaitingAt(b, j);
    } else {
      forall j | 0 <= j < |b| ensures b[j].name != name {
        assert b[j] in b;
      }
      NotWaiting(a, name);
      NotWaiting(b, name);
    }
  }

  lemma OfMore(msgs: seq<Msg>, m: Msg, name: string)
    ensures Of(msgs + [m], name) == Of(msgs, name) + if m.queue == name then [m] else []
  {
    assert (msgs + [m])[..|msgs|] == msgs;
  }

  lemma {:induction false} OfNamed(msgs: seq<Msg>, name: string)
    ensures forall i :: 0 <= i < |Of(msgs, name)| ==> Of(msgs, name)[i].queue == name
  {
    if |msgs| > 0 {
      OfNamed(msgs[..|msgs| - 1], name);
    }
  }

  // ---- scheduling ----

  /** Pushing on a queue adds to what waits for its name, and to nothing else. */
  lemma PushedWaits(before: seq<Queue>, m: Msg, after: seq<Queue>, name: string)
    requires DistinctNames(before) && Pushed(before, m, after)
    ensures DistinctNames(after) && (HasName(after, name) <==> HasName(before, name))
    ensures Waiting(after, name) == Waiting(before, name) + if m.queue == name then [m] else []
    ensures HasName(before, m.queue) && (NoneEmpty(before) ==> NoneEmpty(after))
  {
    var i :| 0 <= i < |before| && before[i].name == m.queue && after == before[i := Queue(m.queue, before[i].messages + [m])];
    forall j | 0 <= j < |before| ensures after[j].name == before[j].name {
    }
    WaitingAt(before, i);
    WaitingAt(after, i);
    if m.queue != name {
      forall q: Queue | q.name == name ensures q in before <==> q in after {
        if q in before { var j :| 0 <= j < |before| && before[j] == q; assert after[j] == q; }
        if q in after { var j :| 0 <= j < |after| && after[j] == q; assert before[j] == q; }
      }
      SameWaiting(before, after, name);
    }
  }

  /** A queue at the end of the list. */
  lemma AddedWaits(before: seq<Queue>, q: Queue, after: seq<Queue>, name: string)
    requires DistinctNames(before) && !HasName(before, q.name) && after == before + [q]
    ensures DistinctNames(after) && (HasName(after, name) <==> HasName(before, name) || q.name == name)
    ensures Waiting(after, name) == if q.name == name then q.messages else Waiting(before, name)
  {
    forall j | 0 <= j < |before| ensures after[j].name != q.name {
      assert after[j] == before[j];
    }
    WaitingAt(after, |before|);
    NotWaiting(before, q.name);
    if q.name != name {
      forall x: Queue | x.name == name ensures x in before <==> x in after {
      }
      SameWaiting(before, after, name);
    }
  }

  /** A queue out of the list. */
  lemma RemovedWaits(before: seq<Queue>, i: nat, after: seq<Queue>, name: string)
    requires DistinctNames(before) && i < |before| && after == before[..i] + before[i + 1..]
    ensures DistinctNames(after) && (HasName(after, name) <==> HasName(before, name) && before[i].name != name)
    ensures Waiting(after, name) == if before[i].name == name then [] else Waiting(before, name)
  {
    forall j | 0 <= j < |after| ensures after[j] == before[if j < i then j else j + 1] && after[j].name != before[i].name {
    }
    NotWaiting(after, before[i].name);
    if before[i].name != name {
      forall x: Queue | x.name == name ensures x in before <==> x in after {
        if x in before { var j :| 0 <= j < |before| && before[j] == x; assert after[if j < i then j else j - 1] == x; }
      }
      SameWaiting(before, after, name);
    }
  }

  /** One message more is sent and waits, behind the others of its name. */
  lemma ScheduleFifo(s: State, m: Msg, s': State)
    requires DistinctNames(s.scheduled) && DistinctNames(s.pending) && NoneInBoth(s.scheduled, s.pending) && NoneEmpty(s.scheduled)
    requires Fifo(s) && Schedule(s, m, s')
    ensures DistinctNames(s'.scheduled) && DistinctNames(s'.pending) && NoneInBoth(s'.scheduled, s'.pending)
    ensures NoneEmpty(s'.scheduled) && Fifo(s')
  {
    hide Of;
    hide Waiting;
    hide DistinctNames;
    forall name
      ensures DistinctNames(s'.scheduled) && DistinctNames(s'.pending) && NoneEmpty(s'.scheduled)
      ensures HasName(s'.scheduled, name) ==> !HasName(s'.pending, name)
      ensures Of(s'.sent, name) == Of(s'.taken, name) + Queued(s', name)
    {
      if HasName(s.scheduled, m.queue) {
        PushedWaits(s.scheduled, m, s'.scheduled, name);
      } else if HasName(s.pending, m.queue) {
        PushedWaits(s.pending, m, s'.pending, name);
      } else {
        AddedWaits(s.scheduled, Queue(m.queue, [m]), s'.scheduled, name);
        NotWaiting(s.pending, m.queue);
      }
      OfMore(s.sent, m, name);
    }
  }

  /** The message taken is the first that waits for its name. */
  lemma TakeFifo(s: State, t: nat, s': State)
    requires DistinctNames(s.scheduled) && DistinctNames(s.pending) && NoneInBoth(s.scheduled, s.pending) && NoneEmpty(s.scheduled)
    requires Fifo(s) && Take(s, t, s')
    ensures DistinctNames(s'.scheduled) && DistinctNames(s'.pending) && NoneInBoth(s'.scheduled, s'.pending)
    ensures NoneEmpty(s'.scheduled) && Fifo(s')
  {
    hide Of;
    hide Waiting;
    hide DistinctNames;
    hide HasName;
    if |s.scheduled| > 0 {
      FirstNamed(s, s.scheduled[0]);
      TakeFifoAt(s, s', "");
      forall name
        ensures HasName(s'.scheduled, name) ==> !HasName(s'.pending, name)
        ensures Of(s'.sent, name) == Of(s'.taken, name) + Queued(s', name)
      {
        TakeFifoAt(s, s', name);
      }
    } else {
      forall name ensures Queued(s', name) == Queued(s, name) {
      }
    }
  }

  lemma TakeFifoAt(s: State, s': State, name: string)
    requires DistinctNames(s.scheduled) && DistinctNames(s.pending) && |s.scheduled| > 0
    requires HasName(s.scheduled, name) ==> !HasName(s.pending, name)
    requires HasName(s.scheduled, s.scheduled[0].name) ==> !HasName(s.pending, s.scheduled[0].name)
    requires |s.scheduled[0].messages| > 0 && s.scheduled[0].messages[0].queue == s.scheduled[0].name
    requires s'.pending == s.pending + [s.scheduled[0].(messages := s.scheduled[0].messages[1..])]
    requires s'.scheduled == s.scheduled[1..] && s'.sent == s.sent && s'.taken == s.taken + [s.scheduled[0].messages[0]]
    requires Of(s.sent, name) == Of(s.taken, name) + Queued(s, name)
    ensures DistinctNames(s'.scheduled) && DistinctNames(s'.pending)
    ensures HasName(s'.scheduled, name) ==> !HasName(s'.pending, name)
    ensures Of(s'.sent, name) == Of(s'.taken, name) + Queued(s', name)
  {
    hide Of;
    hide Waiting;
    hide DistinctNames;
    hide HasName;
    var q := s.scheduled[0];
    var rest := q.(messages := q.messages[1..]);
    assert s.scheduled[1..] == s.scheduled[..0] + s.scheduled[1..];
    WaitingAt(s.scheduled, 0);
    RemovedWaits(s.scheduled, 0, s'.scheduled, name);
    AddedWaits(s.pending, rest, s'.pending, name);
    OfMore(s.taken, q.messages[0], name);
    if q.name == name {
      assert q.messages == [q.messages[0]] + rest.messages;
    }
  }

  lemma FirstNamed(s: State, q: Queue)
    requires Fifo(s) && DistinctNames(s.scheduled) && |s.scheduled| > 0 && q == s.scheduled[0] && |q.messages| > 0
    ensures q.messages[0].queue == q.name && HasName(s.scheduled, q.name)
  {
    WaitingAt(s.scheduled, 0);
    OfNamed(s.sent, q.name);
    assert Of(s.sent, q.name)[|Of(s.taken, q.name)|] == q.messages[0];
  }

  /** What waits stays where it is in line when a queue changes lists. */
  lemma FinishFifo(s: State, t: nat, s': State)
    requires DistinctNames(s.scheduled) && DistinctNames(s.pending) && NoneInBoth(s.scheduled, s.pending) && NoneEmpty(s.scheduled)
    requires Fifo(s) && Finish(s, t, s')
    ensures DistinctNames(s'.scheduled) && DistinctNames(s'.pending) && NoneInBoth(s'.scheduled, s'.pending)
    ensures NoneEmpty(s'.scheduled) && Fifo(s')
  {
    var i :| 0 <= i < |s.pending| && s.pending[i].name == s.workers[t].queue && s' == GivenBack(s, t, i);
    hide Waiting;
    hide Of;
    hide DistinctNames;
    hide HasName;
    WaitingAt(s.pending, i);
    FinishFifoAt(s, i, s', "");
    forall name
      ensures HasName(s'.scheduled, name) ==> !HasName(s'.pending, name)
      ensures Queued(s', name) == Queued(s, name)
    {
      FinishFifoAt(s, i, s', name);
    }
  }

  lemma FinishFifoAt(s: State, i: nat, s': State, name: string)
    requires DistinctNames(s.scheduled) && DistinctNames(s.pending) && i < |s.pending|
    requires HasName(s.scheduled, name) ==> !HasName(s.pending, name)
    requires !HasName(s.scheduled, s.pending[i].name)
    requires s'.pending == s.pending[..i] + s.pending[i + 1..]
    requires s'.scheduled == if |s.pending[i].messages| == 0 then s.scheduled else s.scheduled + [s.pending[i]]
    ensures DistinctNames(s'.scheduled) && DistinctNames(s'.pending)
    ensures HasName(s'.scheduled, name) ==> !HasName(s'.pending, name)
    ensures Queued(s', name) == Queued(s, name)
  {
    hide Waiting;
    hide DistinctNames;
    hide HasName;
    var q := s.pending[i];
    WaitingAt(s.pending, i);
    NotWaiting(s.scheduled, q.name);
    RemovedWaits(s.pending, i, s'.pending, name);
    if |q.messages| > 0 {
      AddedWaits(s.scheduled, q, s'.scheduled, name);
    }
  }

  // ---- workers ----

  lemma SubsetCount<T>(a: set<T>, b: set<T>)
    requires a <= b
    ensures |a| <= |b|
    ensures |a| == |b| ==> a == b
  {
    assert b == a + (b - a);
  }

  /** Waking takes workers out of the blocked ones, and no worker out of the busy ones. */
  lemma WokenWorkers(before: map<nat, Worker>, after: map<nat, Worker>)
    requires Woken(before, after)
    ensures BlockedOf(after) <= BlockedOf(before) && BusyOf(after) == BusyOf(before) && |after| == |before|
    ensures forall name :: Serving(after, name) <==> Serving(before, name)
    ensures OneEach(before) ==> OneEach(after)
  {
    assert |after.Keys| == |before.Keys|;
    forall t | t in before ensures before[t].Busy? || after[t].Busy? ==> before[t] == after[t] {
    }
    forall name ensures Serving(after, name) <==> Serving(before, name) {
      if t :| t in before && before[t] == Busy(name) { assert after[t] == Busy(name); }
      if t :| t in after && after[t] == Busy(name) { assert before[t] == Busy(name); }
    }
  }

  /** One worker changes. */
  lemma WorkerChanged(before: map<nat, Worker>, t: nat, w: Worker, after: map<nat, Worker>)
    requires t in before && after == before[t := w]
    ensures |after| == |before|
    ensures BlockedOf(after) == if w.Blocked? then BlockedOf(before) + {t} else BlockedOf(before) - {t}
    ensures BusyOf(after) == if w.Busy? then BusyOf(before) + {t} else BusyOf(before) - {t}
    ensures t in BlockedOf(before) <==> before[t].Blocked?
    ensures t in BusyOf(before) <==> before[t].Busy?
  {
    assert after.Keys == before.Keys;
    assert |after| == |after.Keys| && |before| == |before.Keys|;
  }

  lemma ServesMore(before: map<nat, Worker>, t: nat, w: Worker, after: map<nat, Worker>)
    requires t in before && !before[t].Busy? && after == before[t := w] && OneEach(before)
    requires w.Busy? ==> !Serving(before, w.queue)
    ensures forall name :: Serving(after, name) <==> Serving(before, name) || w == Busy(name)
    ensures OneEach(after)
  {
    forall name ensures Serving(after, name) <==> Serving(before, name) || w == Busy(name) {
      if u :| u in before && before[u] == Busy(name) { assert after[u] == Busy(name); }
      if w == Busy(name) { assert after[t] == Busy(name); }
      if u :| u in after && after[u] == Busy(name) { assert u == t || before[u] == Busy(name); }
    }
  }

  lemma ServesLess(before: map<nat, Worker>, t: nat, after: map<nat, Worker>)
    requires t in before && before[t].Busy? && after == before[t := Running] && OneEach(before)
    ensures forall name :: Serving(after, name) <==> Serving(before, name) && before[t] != Busy(name)
    ensures OneEach(after)
  {
    forall name ensures Serving(after, name) <==> Serving(before, name) && before[t] != Busy(name) {
      if u :| u in before && before[u] == Busy(name) { assert u == t || after[u] == Busy(name); }
      if u :| u in after && after[u] == Busy(name) { assert before[u] == Busy(name); }
    }
  }

  lemma ScheduleLively(s: State, m: Msg, s': State)
    requires Served(s.pending, s.workers) && Lively(s) && Stopping(s) && Schedule(s, m, s')
    requires DistinctNames(s.scheduled) && DistinctNames(s.pending)
    ensures Served(s'.pending, s'.workers) && Lively(s') && Stopping(s')
  {
    hide BusyOf;
    hide BlockedOf;
    hide OneEach;
    hide DistinctNames;
    if HasName(s.scheduled, m.queue) {
      assert |s'.scheduled| == |s.scheduled|;
    } else if HasName(s.pending, m.queue) {
      forall name ensures HasName(s'.pending, name) <==> HasName(s.pending, name) {
        PushedWaits(s.pending, m, s'.pending, name);
      }
    } else {
      WokenWorkers(s.workers, s'.workers);
      SignalCounts(s.workers, s'.workers);
    }
  }

  /** A signal leaves fewer workers blocked, if any were. */
  lemma SignalCounts(before: map<nat, Worker>, after: map<nat, Worker>)
    requires Signalled(before, after)
    ensures BlockedOf(after) <= BlockedOf(before)
    ensures BlockedOf(after) != {} ==> |BlockedOf(after)| < |BlockedOf(before)|
  {
    WokenWorkers(before, after);
    if u :| u in BlockedOf(after) {
      assert u in before && before[u].Blocked?;
      var t :| t in before && before[t].Blocked? && after[t].Running?;
      assert t in BlockedOf(before) && t !in BlockedOf(after);
      SubsetCount(BlockedOf(after) + {t}, BlockedOf(before));
    }
  }

  lemma TakeLively(s: State, t: nat, s': State)
    requires Served(s.pending, s.workers) && Lively(s) && Stopping(s) && Take(s, t, s')
    requires DistinctNames(s.pending) && NoneInBoth(s.scheduled, s.pending)
    ensures Served(s'.pending, s'.workers) && Lively(s')
  {
    if |s.scheduled| == 0 {
      IdleLively(s, t, s');
    } else {
      BusyLively(s, t, s', s.scheduled[0]);
    }
  }

  lemma IdleLively(s: State, t: nat, s': State)
    requires Served(s.pending, s.workers) && Lively(s) && Stopping(s) && Take(s, t, s') && |s.scheduled| == 0
    ensures Served(s'.pending, s'.workers) && Lively(s')
  {
    hide BusyOf;
    hide BlockedOf;
    hide OneEach;
    hide Serving;
    hide HasName;
    var w := s'.workers[t];
    WorkerChanged(s.workers, t, w, s'.workers);
    ServesMore(s.workers, t, w, s'.workers);
    if s.stop {
      NoneBlocked(s'.workers);
    } else {
      BlocksOne(s.workers, t, s'.workers);
    }
  }

  lemma BusyLively(s: State, t: nat, s': State, q: Queue)
    requires Served(s.pending, s.workers) && Lively(s) && Take(s, t, s') && |s.scheduled| > 0 && q == s.scheduled[0]
    requires DistinctNames(s.pending) && NoneInBoth(s.scheduled, s.pending)
    ensures Served(s'.pending, s'.workers) && Lively(s')
  {
    hide BusyOf;
    hide BlockedOf;
    hide OneEach;
    hide DistinctNames;
    hide Serving;
    assert HasName(s.scheduled, q.name);
    hide HasName;
    WorkerChanged(s.workers, t, Busy(q.name), s'.workers);
    ServesMore(s.workers, t, Busy(q.name), s'.workers);
    forall name ensures HasName(s'.pending, name) <==> HasName(s.pending, name) || q.name == name {
      AddedWaits(s.pending, q.(messages := q.messages[1..]), s'.pending, name);
    }
  }

  /** Workers wait only before the stop and leave only after it. */
  lemma TakeStopping(s: State, t: nat, s': State)
    requires Stopping(s) && Take(s, t, s')
    ensures Stopping(s')
  {
  }

  /** A worker that blocks leaves room for the busy ones. */
  lemma BlocksOne(before: map<nat, Worker>, t: nat, after: map<nat, Worker>)
    requires t in before && before[t].Running? && after == before[t := Blocked]
    ensures |BusyOf(before)| + |BlockedOf(after)| <= |after|
  {
    WorkerChanged(before, t, Blocked, after);
    var busy, blocked := BusyOf(before), BlockedOf(after);
    assert after.Keys == before.Keys;
    assert busy !! blocked;
    SubsetCount(busy + blocked, after.Keys);
  }

  lemma FinishLively(s: State, t: nat, s': State)
    requires Served(s.pending, s.workers) && Lively(s) && Stopping(s) && Finish(s, t, s')
    requires DistinctNames(s.pending)
    ensures Served(s'.pending, s'.workers) && Lively(s') && Stopping(s')
  {
    hide Serving;
    hide HasName;
    hide BusyOf;
    hide BlockedOf;
    hide OneEach;
    hide DistinctNames;
    var i :| 0 <= i < |s.pending| && s.pending[i].name == s.workers[t].queue && s' == GivenBack(s, t, i);
    WorkerChanged(s.workers, t, Running, s'.workers);
    ServesLess(s.workers, t, s'.workers);
    forall name ensures HasName(s'.pending, name) <==> HasName(s.pending, name) && s.pending[i].name != name {
      RemovedWaits(s.pending, i, s'.pending, name);
    }
  }

  // ---- every step keeps it all ----

  lemma StepKeeps(s: State, a: Action, s': State)
    requires Inv(s) && Step(s, a, s')
    ensures Inv(s')
  {
    hide Fifo;
    hide Served;
    hide Lively;
    hide DistinctNames;
    hide NoneInBoth;
    hide NoneEmpty;
    match a
    case DoSchedule(m) =>
      ScheduleFifo(s, m, s');
      ScheduleLively(s, m, s');
    case DoTake(t) =>
      TakeFifo(s, t, s');
      TakeLively(s, t, s');
      TakeStopping(s, t, s');
    case DoFinish(t) =>
      FinishFifo(s, t, s');
      FinishLively(s, t, s');
    case DoStop =>
      StopLively(s, s');
      SameFifo(s, s');
    case DoWakeUp(t) =>
      WakeUpLively(s, t, s');
      SameFifo(s, s');
  }

  lemma StopLively(s: State, s': State)
    requires Served(s.pending, s.workers) && Lively(s) && Stop(s, s')
    ensures Served(s'.pending, s'.workers) && Lively(s') && Stopping(s')
  {
    WokenWorkers(s.workers, s'.workers);
    NoneBlocked(s'.workers);
  }

  lemma WakeUpLively(s: State, t: nat, s': State)
    requires Served(s.pending, s.workers) && Lively(s) && Stopping(s) && WakeUp(s, t, s')
    ensures Served(s'.pending, s'.workers) && Lively(s') && Stopping(s')
  {
    WorkerChanged(s.workers, t, Running, s'.workers);
    ServesMore(s.workers, t, Running, s'.workers);
    SubsetCount(BlockedOf(s'.workers), BlockedOf(s.workers));
  }

  lemma NoneBlocked(workers: map<nat, Worker>)
    requires forall t :: t in workers ==> !workers[t].Blocked?
    ensures BlockedOf(workers) == {}
  {
  }

  lemma SameFifo(s: State, s': State)
    requires Fifo(s) && s'.scheduled == s.scheduled && s'.pending == s.pending && s'.sent == s.sent && s'.taken == s.taken
    ensures Fifo(s')
  {
    forall name ensures Queued(s', name) == Queued(s, name) {
    }
  }

  // ---- runs ----

  /** A run from the start: an action leads from each state to the next. */
  ghost predicate IsRun(run: seq<State>, actions: seq<Action>) {
    && |run| == |actions| + 1 && Start(run[0])
    && forall i :: 0 <= i < |actions| ==> Step(run[i], actions[i], run[i + 1])
  }

  lemma StartHolds(s: State)
    requires Start(s)
    ensures Inv(s)
  {
    assert BlockedOf(s.workers) == {} && BusyOf(s.workers) == {};
    forall name ensures Of(s.sent, name) == Of(s.taken, name) + Queued(s, name) && !HasName(s.pending, name) && !Serving(s.workers, name) {
    }
  }

  /** Every state of every run, whatever the interleaving. */
  lemma {:induction false} RunHolds(run: seq<State>, actions: seq<Action>, i: nat)
    requires IsRun(run, actions) && i < |run|
    ensures Inv(run[i])
  {
    if i == 0 {
      StartHolds(run[0]);
    } else {
      RunHolds(run, actions, i - 1);
      StepKeeps(run[i - 1], actions[i - 1], run[i]);
    }
  }

  /**
   * In every state of every run the messages of one name taken for dispatch are those scheduled first
   * for it, in that order and each once; no two workers dispatch messages of one name; and no name has
   * two queues.
   */
  lemma SerialFifo(run: seq<State>, actions: seq<Action>, i: nat, name: string)
    requires IsRun(run, actions) && i < |run|
    ensures Of(run[i].taken, name) <= Of(run[i].sent, name)
    ensures OneEach(run[i].workers)
    ensures DistinctNames(run[i].scheduled) && DistinctNames(run[i].pending) && NoneInBoth(run[i].scheduled, run[i].pending)
  {
    RunHolds(run, actions, i);
  }

  /** As long as there is work and a worker that is not gone, some worker is not waiting for a signal. */
  lemma NoStall(run: seq<State>, actions: seq<Action>, i: nat)
    requires IsRun(run, actions) && i < |run|
    requires |run[i].workers| > 0 && !run[i].stop
    ensures |BlockedOf(run[i].workers)| > 0 ==> |run[i].workers| - |BlockedOf(run[i].workers)| >= |run[i].scheduled| + |run[i].pending|
    ensures |run[i].scheduled| > 0 ==> exists t :: t in run[i].workers && (run[i].workers[t].Running? || run[i].workers[t].Busy?)
  {
    RunHolds(run, actions, i);
    var s := run[i];
    if |s.scheduled| > 0 {
      NotAllBlocked(s.workers);
    }
  }

  lemma NotAllBlocked(workers: map<nat, Worker>)
    requires |BlockedOf(workers)| < |workers|
    ensures exists t :: t in workers && !workers[t].Blocked?
  {
    var awake := workers.Keys - BlockedOf(workers);
    assert workers.Keys == awake + BlockedOf(workers);
    assert |workers| == |workers.Keys|;
    var t :| t in awake;
    assert t in workers && !workers[t].Blocked?;
  }

  /** All workers are gone. */
  predicate AllGone(s: State) {
    |s.workers| > 0 && forall t :: t in s.workers ==> s.workers[t].Exited?
  }

  lemma OnlyTakeLeaves(s: State, a: Action, s': State)
    requires Step(s, a, s') && !a.DoTake? && AllGone(s')
    ensures AllGone(s)
  {
    assert s.workers.Keys == s'.workers.Keys;
    assert |s.workers| == |s.workers.Keys| && |s'.workers| == |s'.workers.Keys|;
    forall t | t in s.workers ensures s.workers[t].Exited? {
      assert s'.workers[t].Exited?;
    }
  }

  lemma SomeBusy(pending: seq<Queue>, workers: map<nat, Worker>)
    requires Served(pending, workers) && |pending| > 0
    ensures exists t :: t in workers && workers[t].Busy?
  {
    assert HasName(pending, pending[0].name);
    var t :| t in workers && workers[t] == Busy(pending[0].name);
  }

  /** When the last worker leaves, nothing is left in any queue. */
  lemma LastLeaves(s: State, a: Action, s': State)
    requires Inv(s) && Step(s, a, s') && !AllGone(s) && AllGone(s')
    ensures s'.scheduled == [] && s'.pending == [] && s'.sent == s.sent
    ensures forall name :: Of(s'.taken, name) == Of(s'.sent, name)
  {
    StepKeeps(s, a, s');
    SomeWorker(s'.workers);
    if !a.DoTake? {
      OnlyTakeLeaves(s, a, s');
    }
    assert s'.scheduled == [];
    if |s'.pending| > 0 {
      SomeBusy(s'.pending, s'.workers);
    }
    forall name ensures Of(s'.taken, name) == Of(s'.sent, name) {
      assert Queued(s', name) == [];
    }
  }

  lemma SomeWorker(workers: map<nat, Worker>)
    requires |workers| > 0
    ensures exists t :: t in workers
  {
    assert workers.Keys != {};
  }

  lemma {:induction false} CountOf(msgs: seq<Msg>, m: Msg)
    ensures multiset(Of(msgs, m.queue))[m] == multiset(msgs)[m]
  {
    if |msgs| > 0 {
      var n := |msgs| - 1;
      CountOf(msgs[..n], m);
      assert msgs == msgs[..n] + [msgs[n]];
    }
  }

  /** Every message scheduled before the last worker left was taken, as often as it was scheduled. */
  lemma Drained(run: seq<State>, actions: seq<Action>, i: nat)
    requires IsRun(run, actions) && i < |actions| && !AllGone(run[i]) && AllGone(run[i + 1])
    ensures multiset(run[i + 1].taken) == multiset(run[i].sent)
  {
    RunHolds(run, actions, i);
    LastLeaves(run[i], actions[i], run[i + 1]);
    forall m: Msg ensures multiset(run[i + 1].taken)[m] == multiset(run[i].sent)[m] {
      CountOf(run[i + 1].taken, m);
      CountOf(run[i].sent, m);
    }
  }

  /** A message scheduled after that is never taken. */
  lemma {:induction false} NothingAfter(run: seq<State>, actions: seq<Action>, i: nat, j: nat)
    requires IsRun(run, actions) && i <= j < |run| && AllGone(run[i])
    ensures AllGone(run[j]) && run[j].taken == run[i].taken
    decreases j - i
  {
    if i < j {
      NothingAfter(run, actions, i, j - 1);
      assert Step(run[j - 1], actions[j - 1], run[j]);
      SomeWorker(run[j - 1].workers);
    }
  }
}
