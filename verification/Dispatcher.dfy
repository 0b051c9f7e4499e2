/** The dispatcher as it runs: each method is one region its mutex protects, and one step of the machine. */
module Dispatcher {
  import D = Dispatch

  class MessageQueue {
    const name: string
    var messages: seq<D.Msg>

    constructor (queueName: string)
      ensures name == queueName && messages == []
    {
      name, messages := queueName, [];
    }

    method Push(m: D.Msg)
      modifies this
      ensures messages == old(messages) + [m]
    {
      messages := messages + [m];
    }

    method Pop() returns (m: D.Msg)
      requires |messages| > 0
      modifies this
      ensures m == old(messages)[0] && messages == old(messages)[1..]
    {
      m := messages[0];
      messages := messages[1..];
    }
  }

  ghost function Values(list: seq<MessageQueue>): (queues: seq<D.Queue>)
    reads list
    ensures |queues| == |list|
    ensures forall i :: 0 <= i < |list| ==> queues[i] == D.Queue(list[i].name, list[i].messages)
  {
    if |list| == 0 then [] else [D.Queue(list[0].name, list[0].messages)] + Values(list[1..])
  }

  /** Lists of queues of different names hold different queues. */
  lemma DifferentQueues(list: seq<MessageQueue>, i: nat, j: nat)
    requires D.DistinctNames(Values(list)) && i < |list| && j < |list| && i != j
    ensures list[i] != list[j]
  {
    hide Values;
    var queues := Values(list);
    if i < j {
      assert queues[i].name != queues[j].name;
    } else {
      assert queues[j].name != queues[i].name;
    }
  }

  class MessageDispatcher {
    var scheduledList: seq<MessageQueue>
    var pendingList: seq<MessageQueue>
    var stop: bool
    /** What each worker is at, and what was scheduled and taken so far. */
    ghost var workers: map<nat, D.Worker>
    ghost var sent: seq<D.Msg>
    ghost var taken: seq<D.Msg>

    ghost function State(): D.State
      reads this, scheduledList, pendingList
    {
      D.State(Values(scheduledList), Values(pendingList), stop, workers, sent, taken)
    }

    ghost predicate Valid()
      reads this, scheduledList, pendingList
    {
      D.Inv(State())
    }

    /** The workers that have been started. */
    constructor (ghost threads: map<nat, D.Worker>)
      requires forall t :: t in threads ==> threads[t].Running?
      ensures Valid() && D.Start(State()) && workers == threads
    {
      scheduledList, pendingList, stop, workers, sent, taken := [], [], false, threads, [], [];
      new;
      D.StartHolds(State());
    }

    method FindQueue(name: string, list: seq<MessageQueue>) returns (i: int)
      ensures i == -1 <==> !D.HasName(Values(list), name)
      ensures i != -1 ==> 0 <= i < |list| && list[i].name == name
    {
      i := 0;
      while i < |list|
        invariant 0 <= i <= |list| && forall j :: 0 <= j < i ==> Values(list)[j].name != name
      {
        if list[i].name == name {
          assert Values(list)[i].name == name;
          return;
        }
        i := i + 1;
      }
      i := -1;
    }

    /** The signal wakes a worker that waits, if one does. */
    ghost method Signal()
      modifies `workers
      ensures D.Signalled(old(workers), workers)
    {
      if t :| t in workers && workers[t].Blocked? {
        workers := workers[t := D.Running];
        assert workers[t].Running?;
      }
    }

    /** A new queue is scheduled with a signal, and the message goes into it. */
    method AddQueue(msg: D.Msg)
      modifies `scheduledList, `workers
      ensures |scheduledList| == |old(scheduledList)| + 1
      ensures scheduledList[..|scheduledList| - 1] == old(scheduledList) && fresh(scheduledList[|scheduledList| - 1])
      ensures Values(scheduledList) == old(Values(scheduledList)) + [D.Queue(msg.queue, [msg])]
      ensures Values(pendingList) == old(Values(pendingList))
      ensures D.Signalled(old(workers), workers)
    {
      hide Values;
      ghost var before := Values(scheduledList);
      ghost var others := Values(pendingList);
      var queue := new MessageQueue(msg.queue);
      ghost var list := scheduledList;
      scheduledList := scheduledList + [queue];
      Signal();
      queue.Push(msg);
      forall j | 0 <= j < |list| ensures Values(scheduledList)[j] == before[j] {
        assert scheduledList[j] == list[j] && list[j] != queue;
      }
      assert queue.messages == [msg];
      assert Values(scheduledList) == before + [D.Queue(msg.queue, [msg])];
      assert Values(pendingList) == others;
    }

    /** A message joins the queue of its name; a new queue is scheduled with a signal. */
    method Schedule(msg: D.Msg)
      requires Valid()
      modifies this, scheduledList, pendingList
      ensures Valid() && D.Schedule(old(State()), msg, State())
    {
      hide Values;
      hide D.Fifo;
      hide D.Lively;
      hide D.Served;
      hide D.Stopping;
      hide D.Pushed;
      hide D.Signalled;
      hide D.DistinctNames;
      hide D.NoneEmpty;
      ghost var s := State();
      var i := FindQueue(msg.queue, scheduledList);
      if i != -1 {
        assert D.HasName(s.scheduled, msg.queue);
        PushOn(scheduledList, pendingList, i, msg);
      } else {
        i := FindQueue(msg.queue, pendingList);
        if i != -1 {
          PushOn(pendingList, scheduledList, i, msg);
        } else {
          AddQueue(msg);
        }
      }
      sent := sent + [msg];
      D.StepKeeps(s, D.DoSchedule(msg), State());
    }

    /** A message at the end of one queue of a list; the other list is as it was. */
    method PushOn(list: seq<MessageQueue>, other: seq<MessageQueue>, i: nat, msg: D.Msg)
      requires i < |list| && list[i].name == msg.queue
      requires D.DistinctNames(Values(list)) && !D.HasName(Values(other), msg.queue)
      modifies list[i]
      ensures D.Pushed(old(Values(list)), msg, Values(list)) && Values(other) == old(Values(other))
    {
      hide Values;
      ghost var before := Values(list);
      ghost var others := Values(other);
      forall j | 0 <= j < |list| && j != i ensures list[j] != list[i] {
        DifferentQueues(list, i, j);
      }
      forall j | 0 <= j < |other| ensures other[j] != list[i] {
        assert others[j].name != msg.queue;
      }
      list[i].Push(msg);
      assert Values(list) == before[i := D.Queue(msg.queue, before[i].messages + [msg])];
      assert Values(other) == others;
    }

    /**
     * A worker looks for work: it waits when there is none, leaves when there is none and the
     * dispatcher was stopped, or takes a message of the first queue.
     */
    method BeginDispatch(ghost t: nat) returns (stopped: bool, queue: MessageQueue?, msg: D.Msg)
      requires Valid() && t in workers && workers[t].Running?
      modifies this, scheduledList, pendingList
      ensures Valid() && D.Take(old(State()), t, State())
      ensures stopped <==> workers[t].Exited?
      ensures queue != null <==> workers[t].Busy?
      ensures queue != null ==> queue in pendingList && workers[t] == D.Busy(queue.name) && taken == old(taken) + [msg]
    {
      hide Values;
      hide D.Fifo;
      hide D.Lively;
      hide D.Served;
      hide D.Stopping;
      ghost var s := State();
      stopped, queue, msg := false, null, D.Msg(0, "");
      if |scheduledList| == 0 {
        stopped := stop;
        workers := workers[t := if stop then D.Exited else D.Blocked];
      } else {
        queue := scheduledList[0];
        TakeFirst(queue);
        scheduledList := scheduledList[1..];
        pendingList := pendingList + [queue];
        workers := workers[t := D.Busy(queue.name)];
        msg := queue.Pop();
        taken := taken + [msg];
        assert Values(scheduledList) == s.scheduled[1..];
        assert Values(pendingList) == s.pending + [D.Queue(queue.name, queue.messages)];
      }
      D.StepKeeps(s, D.DoTake(t), State());
    }

    /** The first queue is no other one. */
    lemma TakeFirst(queue: MessageQueue)
      requires Valid() && |scheduledList| > 0 && queue == scheduledList[0]
      ensures |queue.messages| > 0
      ensures forall i :: 0 < i < |scheduledList| ==> scheduledList[i] != queue
      ensures forall i :: 0 <= i < |pendingList| ==> pendingList[i] != queue
    {
      assert Values(scheduledList)[0].name == queue.name;
      assert D.HasName(Values(scheduledList), queue.name);
      forall i | 0 < i < |scheduledList| ensures scheduledList[i] != queue {
        DifferentQueues(scheduledList, 0, i);
      }
      forall i | 0 <= i < |pendingList| ensures pendingList[i] != queue {
        assert Values(pendingList)[i].name != queue.name;
      }
    }

    /** A worker done with its message gives the queue back, without a signal. */
    method EndDispatch(ghost t: nat, queue: MessageQueue)
      requires Valid() && t in workers && workers[t] == D.Busy(queue.name) && queue in pendingList
      modifies this
      ensures Valid() && D.Finish(old(State()), t, State())
    {
      hide Values;
      hide D.Fifo;
      hide D.Lively;
      hide D.Served;
      hide D.Stopping;
      ghost var s := State();
      var i := 0;
      while pendingList[i] != queue
        invariant 0 <= i < |pendingList| && forall j :: 0 <= j < i ==> pendingList[j] != queue
        decreases |pendingList| - i
      {
        i := i + 1;
      }
      pendingList := pendingList[..i] + pendingList[i + 1..];
      if |queue.messages| > 0 {
        scheduledList := scheduledList + [queue];
      }
      workers := workers[t := D.Running];
      assert Values(pendingList) == s.pending[..i] + s.pending[i + 1..];
      assert Values(scheduledList) == D.GivenBack(s, t, i).scheduled;
      D.StepKeeps(s, D.DoFinish(t), State());
    }

    method Stop()
      requires Valid()
      modifies this
      ensures Valid() && D.Stop(old(State()), State())
    {
      hide Values;
      hide D.Fifo;
      hide D.Lively;
      hide D.Served;
      hide D.Stopping;
      ghost var s := State();
      stop := true;
      workers := map t | t in workers :: if workers[t].Blocked? then D.Running else workers[t];
      D.StepKeeps(s, D.DoStop, State());
    }
  }
}
