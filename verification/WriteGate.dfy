/**
 The write gate of internal/restore/writegate.go, as a state machine whose steps interleave freely.

 The mutex is part of the state. A request takes it, looks at `engaged`, and either gives it back or
 counts itself in and gives it back; leaving only touches the atomic counter. The one engager takes
 the mutex to engage or disengage and polls the counter without it. A run that is started over one that
 needs intervention engages a gate that is engaged already.
 */
module WriteGate {
  import opened Common

  type Id = nat

  /** Where a request is: it holds the mutex in Looking and Counting. */
  datatype Request = Looking | Counting | Running

  /** Where the engager is. Drained means WaitForDrain returned true, TimedOut that it returned false. */
  datatype Engager = Idle | Engaging | Draining | Drained | TimedOut | Disengaging

  datatype Holder = Free | HeldBy(id: Id) | HeldByEngager

  datatype Gate = Gate(engaged: bool, inflight: int, mutex: Holder, requests: map<Id, Request>, engager: Engager)

  datatype Action =
    | Lock(id: Id)      // TryEnter: take the mutex
    | Refuse(id: Id)    // engaged: give it back, not admitted
    | Pass(id: Id)      // not engaged: go on to count
    | Count(id: Id)     // inflight.Add(1), give the mutex back
    | Leave(id: Id)     // the leave function: inflight.Add(-1)
    | LockToEngage | SetEngaged | Poll | TimeOut | LockToDisengage | ClearEngaged

  ghost function Start(): Gate
  {
    Gate(false, 0, Free, map[], Idle)
  }

  predicate Enabled(g: Gate, a: Action)
  {
    match a
    case Lock(id) => g.mutex.Free? && id !in g.requests
    case Refuse(id) => Get(g.requests, id) == Some(Looking) && g.engaged
    case Pass(id) => Get(g.requests, id) == Some(Looking) && !g.engaged
    case Count(id) => Get(g.requests, id) == Some(Counting)
    case Leave(id) => Get(g.requests, id) == Some(Running)
    case LockToEngage => g.mutex.Free? && (g.engager.Idle? || g.engager.Drained? || g.engager.TimedOut?)
    case SetEngaged => g.engager.Engaging?
    case Poll => g.engager.Draining?
    case TimeOut => g.engager.Draining?
    case LockToDisengage => g.mutex.Free? && (g.engager.Drained? || g.engager.TimedOut?)
    case ClearEngaged => g.engager.Disengaging?
  }

  function Do(g: Gate, a: Action): Gate
    requires Enabled(g, a)
  {
    match a
    case Lock(id) => g.(mutex := HeldBy(id), requests := g.requests[id := Looking])
    case Refuse(id) => g.(mutex := Free, requests := g.requests - {id})
    case Pass(id) => g.(requests := g.requests[id := Counting])
    case Count(id) => g.(inflight := g.inflight + 1, mutex := Free, requests := g.requests[id := Running])
    case Leave(id) => g.(inflight := g.inflight - 1, requests := g.requests - {id})
    case LockToEngage => g.(mutex := HeldByEngager, engager := Engaging)
    case SetEngaged => g.(engaged := true, mutex := Free, engager := Draining)
    case Poll => if g.inflight == 0 then g.(engager := Drained) else g
    case TimeOut => g.(engager := TimedOut)
    case LockToDisengage => g.(mutex := HeldByEngager, engager := Disengaging)
    case ClearEngaged => g.(engaged := false, mutex := Free, engager := Idle)
  }

  /** The requests that were admitted and have not left. */
  ghost function Admitted(g: Gate): set<Id>
  {
    set id | id in g.requests && g.requests[id].Running?
  }

  /** The counter is exact, only the mutex holder is undecided, and a drained gate is empty. */
  ghost predicate Inv(g: Gate)
  {
    && g.inflight == |Admitted(g)|
    && (forall id :: id in g.requests && !g.requests[id].Running? ==> g.mutex == HeldBy(id))
    && (g.mutex.HeldBy? ==> g.mutex.id in g.requests && !g.requests[g.mutex.id].Running?)
    && (forall id :: id in g.requests && g.requests[id].Counting? ==> !g.engaged)
    && (g.mutex.HeldByEngager? <==> g.engager.Engaging? || g.engager.Disengaging?)
    && (g.engager.Draining? || g.engager.Drained? || g.engager.TimedOut? || g.engager.Disengaging? ==> g.engaged)
    && (g.engager.Idle? ==> !g.engaged)
    && (g.engager.Drained? ==> Admitted(g) == {})
  }

  /** Counting in and leaving are the only steps that change who is admitted. */
  lemma AdmittedAfter(g: Gate, a: Action)
    requires Enabled(g, a)
    ensures Admitted(Do(g, a)) ==
            match a case Count(id) => Admitted(g) + {id} case Leave(id) => Admitted(g) - {id} case _ => Admitted(g)
    ensures a.Count? ==> a.id !in Admitted(g)
    ensures a.Leave? ==> a.id in Admitted(g)
  {
  }

  /** Whoever holds the mutex can go on, and who can do so gives it back: a request by its answer, the engager by its one assignment. */
  lemma HolderGoesOn(g: Gate)
    requires Inv(g) && !g.mutex.Free?
    ensures g.mutex.HeldBy? ==>
              var id := g.mutex.id;
              if g.requests[id].Counting? then Enabled(g, Count(id)) && Do(g, Count(id)).mutex.Free?
              else if g.engaged then Enabled(g, Refuse(id)) && Do(g, Refuse(id)).mutex.Free?
              else Enabled(g, Pass(id)) && Enabled(Do(g, Pass(id)), Count(id))
    ensures g.mutex.HeldByEngager? ==>
              var a := if g.engager.Engaging? then SetEngaged else ClearEngaged;
              Enabled(g, a) && Do(g, a).mutex.Free?
  {
  }

  /** The counter follows the set of admitted requests. */
  lemma StepKeepsCount(g: Gate, a: Action)
    requires Enabled(g, a) && g.inflight == |Admitted(g)|
    ensures Do(g, a).inflight == |Admitted(Do(g, a))|
  {
    AdmittedAfter(g, a);
  }

  lemma StepKeepsInv(g: Gate, a: Action)
    requires Inv(g) && Enabled(g, a)
    ensures Inv(Do(g, a))
    ensures g.engaged ==> Do(g, a).inflight <= g.inflight
  {
    StepKeepsCount(g, a);
    AdmittedAfter(g, a);
  }

  // ----- whole runs -----

  ghost predicate IsRun(states: seq<Gate>, actions: seq<Action>)
  {
    && |states| == |actions| + 1 && states[0] == Start()
    && forall i :: 0 <= i < |actions| ==> Enabled(states[i], actions[i]) && states[i + 1] == Do(states[i], actions[i])
  }

  lemma {:induction false} RunKeepsInv(states: seq<Gate>, actions: seq<Action>, i: nat)
    requires IsRun(states, actions) && i < |states|
    ensures Inv(states[i])
  {
    if i == 0 {
      assert Admitted(Start()) == {};
    } else {
      RunKeepsInv(states, actions, i - 1);
      StepKeepsInv(states[i - 1], actions[i - 1]);
    }
  }

  /** In every interleaving the counter is the number of admitted requests that have not left. */
  lemma CounterIsExact(states: seq<Gate>, actions: seq<Action>, i: nat)
    requires IsRun(states, actions) && i < |states|
    ensures states[i].inflight == |Admitted(states[i])| >= 0
  {
    RunKeepsInv(states, actions, i);
  }

  /** While the gate stays engaged nobody new is admitted, so the counter never rises. */
  lemma {:induction false} EngagedOnlyDrains(states: seq<Gate>, actions: seq<Action>, i: nat, j: nat)
    requires IsRun(states, actions) && i <= j < |states|
    requires forall k :: i <= k < j ==> states[k].engaged
    ensures states[j].inflight <= states[i].inflight
    ensures Admitted(states[j]) <= Admitted(states[i])
  {
    if i < j {
      EngagedOnlyDrains(states, actions, i, j - 1);
      RunKeepsInv(states, actions, j - 1);
      StepKeepsInv(states[j - 1], actions[j - 1]);
      assert states[j] == Do(states[j - 1], actions[j - 1]);
      assert Admitted(states[j]) <= Admitted(states[j - 1]);
    }
  }

  /**
   Once WaitForDrain has returned true, no admitted request runs at any later moment before the gate is
   disengaged: as long as no Disengage has cleared it, nobody is inside.
   */
  lemma {:induction false} DrainedStaysEmpty(states: seq<Gate>, actions: seq<Action>, i: nat, j: nat)
    requires IsRun(states, actions) && i <= j < |states| && states[i].engager.Drained?
    requires forall k :: i <= k < j ==> !actions[k].ClearEngaged?
    ensures Admitted(states[j]) == {} && states[j].engaged
  {
    RunKeepsInv(states, actions, j);
    if i < j {
      DrainedStaysEmpty(states, actions, i, j - 1);
      RunKeepsInv(states, actions, j - 1);
      StepKeepsInv(states[j - 1], actions[j - 1]);
      assert states[j] == Do(states[j - 1], actions[j - 1]);
      assert Admitted(states[j]) <= Admitted(states[j - 1]);
    }
  }

  /** The counter can only reach the value WaitForDrain waits for by every admitted request leaving. */
  lemma PollSucceedsIffAllLeft(states: seq<Gate>, actions: seq<Action>, i: nat)
    requires IsRun(states, actions) && i < |actions| && actions[i].Poll?
    ensures states[i + 1].engager.Drained? <==> Admitted(states[i]) == {}
  {
    RunKeepsInv(states, actions, i);
  }

  /** After a time-out the restore goes on while admitted requests may still run. */
  lemma TimeOutMayLeaveRequests() returns (states: seq<Gate>, actions: seq<Action>)
    ensures IsRun(states, actions)
    ensures states[|states| - 1].engager.TimedOut? && Admitted(states[|states| - 1]) != {}
  {
    actions := [Lock(0), Pass(0), Count(0), LockToEngage, SetEngaged, TimeOut];
    var s0 := Start();
    var s1 := Do(s0, actions[0]);
    var s2 := Do(s1, actions[1]);
    var s3 := Do(s2, actions[2]);
    var s4 := Do(s3, actions[3]);
    var s5 := Do(s4, actions[4]);
    var s6 := Do(s5, actions[5]);
    states := [s0, s1, s2, s3, s4, s5, s6];
    assert 0 in Admitted(s6);
  }

  // ----- the object itself -----

  /** TryEnter without anything in between: the mutex is taken, and given back admitted or refused. */
  function Entered(g: Gate, id: Id): Gate
    requires Enabled(g, Lock(id))
  {
    var locked := Do(g, Lock(id));
    if g.engaged then Do(locked, Refuse(id)) else Do(Do(locked, Pass(id)), Count(id))
  }

  /** A call of TryEnter is steps of the gate: it admits the request exactly when the gate is open. */
  lemma EnteredIsSteps(g: Gate, id: Id)
    requires Inv(g) && Enabled(g, Lock(id))
    ensures Inv(Entered(g, id)) && Entered(g, id).mutex.Free? && Entered(g, id).engaged == g.engaged
    ensures Admitted(Entered(g, id)) == if g.engaged then Admitted(g) else Admitted(g) + {id}
  {
    var locked := Do(g, Lock(id));
    AdmittedAfter(g, Lock(id));
    StepKeepsInv(g, Lock(id));
    if g.engaged {
      AdmittedAfter(locked, Refuse(id));
      StepKeepsInv(locked, Refuse(id));
    } else {
      var passed := Do(locked, Pass(id));
      AdmittedAfter(locked, Pass(id));
      StepKeepsInv(locked, Pass(id));
      AdmittedAfter(passed, Count(id));
      StepKeepsInv(passed, Count(id));
    }
  }

  /** seen[k] is what the counter is at the poll actions[at[k]] of a run. */
  ghost predicate SeenAt(seen: seq<int>, states: seq<Gate>, actions: seq<Action>, at: seq<nat>)
  {
    && IsRun(states, actions) && |at| == |seen|
    && forall k :: 0 <= k < |at| ==> at[k] < |actions| && actions[at[k]].Poll? && seen[k] == states[at[k]].inflight
  }

  /** The object's two fields; every method below is the steps of the gate that its name says. */
  class Gatekeeper {
    var engaged: bool
    var inflight: int

    /** The fields are those of the gate in this state. */
    ghost predicate Shows(g: Gate)
      reads this
    {
      engaged == g.engaged && inflight == g.inflight
    }

    constructor ()
      ensures Shows(Start())
    {
      engaged, inflight := false, 0;
    }

    method Engage(ghost g: Gate) returns (ghost now: Gate)
      requires Shows(g) && Inv(g) && g.mutex.Free? && (g.engager.Idle? || g.engager.Drained? || g.engager.TimedOut?)
      modifies this
      ensures now == Do(Do(g, LockToEngage), SetEngaged) && Shows(now) && Inv(now)
      ensures now.engaged && Admitted(now) == Admitted(g)
    {
      StepKeepsInv(g, LockToEngage);
      StepKeepsInv(Do(g, LockToEngage), SetEngaged);
      engaged := true;
      now := Do(Do(g, LockToEngage), SetEngaged);
    }

    method Disengage(ghost g: Gate) returns (ghost now: Gate)
      requires Shows(g) && Inv(g) && g.mutex.Free? && (g.engager.Drained? || g.engager.TimedOut?)
      modifies this
      ensures now == Do(Do(g, LockToDisengage), ClearEngaged) && Shows(now) && Inv(now)
      ensures !now.engaged && Admitted(now) == Admitted(g)
    {
      StepKeepsInv(g, LockToDisengage);
      StepKeepsInv(Do(g, LockToDisengage), ClearEngaged);
      engaged := false;
      now := Do(Do(g, LockToDisengage), ClearEngaged);
    }

    /** TryEnter, under the mutex: admitted exactly when the gate is open, and then counted. */
    method TryEnter(ghost g: Gate, ghost id: Id) returns (ok: bool, ghost now: Gate)
      requires Shows(g) && Inv(g) && g.mutex.Free? && id !in g.requests
      modifies this
      ensures now == Entered(g, id) && Shows(now) && Inv(now)
      ensures ok == !old(engaged) && Admitted(now) == if ok then Admitted(g) + {id} else Admitted(g)
      ensures engaged == old(engaged) && inflight == if ok then old(inflight) + 1 else old(inflight)
    {
      EnteredIsSteps(g, id);
      now := Entered(g, id);
      if engaged {
        return false, now;
      }
      inflight := inflight + 1;
      return true, now;
    }

    /** The function TryEnter hands out; called once per admission. */
    method Leave(ghost g: Gate, ghost id: Id) returns (ghost now: Gate)
      requires Shows(g) && Inv(g) && Get(g.requests, id) == Some(Running)
      modifies this
      ensures now == Do(g, Action.Leave(id)) && Shows(now) && Inv(now) && Admitted(now) == Admitted(g) - {id}
      ensures engaged == old(engaged) && inflight == old(inflight) - 1
    {
      AdmittedAfter(g, Action.Leave(id));
      StepKeepsInv(g, Action.Leave(id));
      inflight := inflight - 1;
      now := Do(g, Action.Leave(id));
    }

    /**
     WaitForDrain. seen[k] is the counter at the k-th poll; the deadline passes after the last poll. It
     reports a drained gate exactly when at some poll every admitted request had left, and stops there.
     */
    method WaitForDrain(seen: seq<int>, ghost states: seq<Gate>, ghost actions: seq<Action>, ghost at: seq<nat>)
        returns (drained: bool, polls: nat)
      requires seen != [] && SeenAt(seen, states, actions, at)
      ensures drained <==> exists k :: 0 <= k < |seen| && Admitted(states[at[k]]) == {}
      ensures 0 < polls <= |seen| && forall k :: 0 <= k < polls - 1 ==> Admitted(states[at[k]]) != {}
      ensures if drained then Admitted(states[at[polls - 1]]) == {} else polls == |seen|
    {
      polls := 0;
      while true
        invariant polls < |seen| && forall k :: 0 <= k < polls ==> Admitted(states[at[k]]) != {}
        decreases |seen| - polls
      {
        RunKeepsInv(states, actions, at[polls]);
        polls := polls + 1;
        if seen[polls - 1] == 0 {
          return true, polls;
        }
        if polls == |seen| {
          return false, polls;
        }
      }
    }
  }
}
