/** Whose turn it is: the names of the scheduled queues are a line that nobody jumps. */
module DispatchTurns {
  import opened Dispatch

  function NamesOf(queues: seq<Queue>): (names: seq<string>)
    ensures |names| == |queues| && forall i :: 0 <= i < |queues| ==> names[i] == queues[i].name
  {
    seq(|queues|, i requires 0 <= i < |queues| => queues[i].name)
  }

  /** The names in line. */
  function Line(s: State): seq<string> { NamesOf(s.scheduled) }

  /** A worker takes a message. */
  predicate Taking(s: State, a: Action) { a.DoTake? && |s.scheduled| > 0 }

  /** One step: who is first may leave the line, and one may join it, at the end. */
  lemma LineMoves(s: State, a: Action, s': State) returns (more: seq<string>)
    requires Step(s, a, s')
    ensures |more| <= 1 && Line(s') == (if Taking(s, a) then Line(s)[1..] else Line(s)) + more
  {
    more := [];
    match a
    case DoSchedule(m) =>
      if HasName(s.scheduled, m.queue) {
        SamePlaces(s.scheduled, m, s'.scheduled);
      } else if !HasName(s.pending, m.queue) {
        more := [m.queue];
        assert Line(s') == Line(s) + more;
      }
    case DoTake(t) =>
      if |s.scheduled| > 0 {
        assert Line(s') == Line(s)[1..];
      }
    case DoFinish(t) =>
      var i :| 0 <= i < |s.pending| && s.pending[i].name == s.workers[t].queue && s' == GivenBack(s, t, i);
      if |s.pending[i].messages| > 0 {
        more := [s.pending[i].name];
        assert Line(s') == Line(s) + more;
      }
    case DoStop =>
    case DoWakeUp(t) =>
  }

  lemma SamePlaces(before: seq<Queue>, m: Msg, after: seq<Queue>)
    requires Pushed(before, m, after)
    ensures NamesOf(after) == NamesOf(before)
  {
    var i :| 0 <= i < |before| && before[i].name == m.queue && after == before[i := Queue(m.queue, before[i].messages + [m])];
    assert forall k :: 0 <= k < |before| ==> after[k].name == before[k].name;
  }

  /** How often a message is taken between two states of a run. */
  function Takes(run: seq<State>, actions: seq<Action>, i: nat, j: nat): (n: nat)
    requires i <= j <= |actions| <= |run|
    decreases j - i
  {
    if i == j then 0 else Takes(run, actions, i, j - 1) + if Taking(run[j - 1], actions[j - 1]) then 1 else 0
  }

  /** A name in line moves up by one place with each message taken, and never back. */
  lemma {:induction false} MovesUp(run: seq<State>, actions: seq<Action>, i: nat, j: nat, p: nat)
    requires IsRun(run, actions) && i <= j < |run| && p < |Line(run[i])| && Takes(run, actions, i, j) <= p
    ensures var place := p - Takes(run, actions, i, j);
      place < |Line(run[j])| && Line(run[j])[place] == Line(run[i])[p]
    decreases j - i
  {
    hide Step;
    hide Start;
    if i < j {
      MovesUp(run, actions, i, j - 1, p);
      assert Step(run[j - 1], actions[j - 1], run[j]);
      var more := LineMoves(run[j - 1], actions[j - 1], run[j]);
    }
  }

  /** After as many messages as there were names in front, the next message taken is one of that name. */
  lemma TurnComes(run: seq<State>, actions: seq<Action>, i: nat, j: nat, p: nat)
    requires IsRun(run, actions) && i <= j < |actions| && p < |Line(run[i])|
    requires Takes(run, actions, i, j) == p && Taking(run[j], actions[j])
    ensures |run[j + 1].taken| == |run[j].taken| + 1 && run[j + 1].taken[..|run[j].taken|] == run[j].taken
    ensures run[j + 1].taken[|run[j].taken|].queue == Line(run[i])[p]
  {
    MovesUp(run, actions, i, j, p);
    RunHolds(run, actions, j);
    assert Step(run[j], actions[j], run[j + 1]);
    FirstTaken(run[j], actions[j], run[j + 1]);
  }

  lemma FirstTaken(s: State, a: Action, s': State)
    requires Inv(s) && Step(s, a, s') && Taking(s, a)
    ensures |s'.taken| == |s.taken| + 1 && s'.taken[..|s.taken|] == s.taken && s'.taken[|s.taken|].queue == Line(s)[0]
  {
    FirstNamed(s, s.scheduled[0]);
  }

  // ---- nobody is served twice while another waits ----

  /** One name is in line, and another, if it is too, stands behind it. */
  predicate Before(line: seq<string>, name: string, other: string) {
    exists p :: 0 <= p < |line| && line[p] == name && forall k :: 0 <= k <= p ==> line[k] != other
  }

  lemma LineDistinct(s: State)
    requires DistinctNames(s.scheduled)
    ensures forall i, j :: 0 <= i < j < |Line(s)| ==> Line(s)[i] != Line(s)[j]
  {
  }

  /** Who stands before another does so as long as both stay. */
  lemma StaysBefore(s: State, a: Action, s': State, name: string, other: string)
    requires Inv(s) && Inv(s') && Step(s, a, s') && Before(Line(s), name, other) && name in Line(s') && name != other
    ensures Before(Line(s'), name, other)
  {
    var p :| 0 <= p < |Line(s)| && Line(s)[p] == name && forall k :: 0 <= k <= p ==> Line(s)[k] != other;
    var more := LineMoves(s, a, s');
    LineDistinct(s);
    if Taking(s, a) && p == 0 {
      GoneFromLine(s, a, s', name);
    } else {
      var q := if Taking(s, a) then p - 1 else p;
      assert Line(s')[q] == name;
      forall k | 0 <= k <= q ensures Line(s')[k] != other {
        assert Line(s')[k] == if Taking(s, a) then Line(s)[k + 1] else Line(s)[k];
      }
    }
  }

  /** Whose message is taken is out of line. */
  lemma GoneFromLine(s: State, a: Action, s': State, name: string)
    requires Inv(s) && Step(s, a, s') && Taking(s, a) && Line(s)[0] == name
    ensures name !in Line(s')
  {
    LineDistinct(s);
    assert Line(s') == Line(s)[1..];
  }

  lemma {:induction false} StillBefore(run: seq<State>, actions: seq<Action>, i: nat, j: nat, name: string, other: string)
    requires IsRun(run, actions) && i <= j < |run| && Before(Line(run[i]), name, other) && name != other
    requires forall k :: i <= k <= j ==> name in Line(run[k])
    ensures Before(Line(run[j]), name, other)
    decreases j - i
  {
    hide Step;
    hide Start;
    hide Inv;
    hide Before;
    if i < j {
      StillBefore(run, actions, i, j - 1, name, other);
      RunHolds(run, actions, j - 1);
      RunHolds(run, actions, j);
      assert Step(run[j - 1], actions[j - 1], run[j]);
      assert name in Line(run[j]);
      StaysBefore(run[j - 1], actions[j - 1], run[j], name, other);
    }
  }

  /** If messages of one name are taken twice, then any other name has been out of line in between. */
  lemma NotTwice(run: seq<State>, actions: seq<Action>, i: nat, j: nat, name: string)
    requires IsRun(run, actions) && i < j < |actions| && Taking(run[i], actions[i]) && Taking(run[j], actions[j])
    requires Line(run[i])[0] == Line(run[j])[0] != name
    ensures exists k :: i <= k <= j && name !in Line(run[k])
  {
    var other := Line(run[i])[0];
    if forall k :: i <= k <= j ==> name in Line(run[k]) {
      assert Step(run[i], actions[i], run[i + 1]);
      RunHolds(run, actions, i);
      GoneFromLine(run[i], actions[i], run[i + 1], other);
      assert name in Line(run[i + 1]);
      var p :| 0 <= p < |Line(run[i + 1])| && Line(run[i + 1])[p] == name;
      assert Before(Line(run[i + 1]), name, other);
      StillBefore(run, actions, i + 1, j, name, other);
    }
  }
}
