/** The Future of the test runner: one setter, any number of getters, a lock with a condition variable, and a first
    test of the flag that is made without the lock. */
module Futures {
  import opened Options

  /** Where a getter is: about to do the thing named. Sleeping getters wait for a notification. */
  datatype GetterPc<V> = TestUnlocked | Acquire | TestLocked | Sleeping | Reacquire | Release | ReadValue
    | Returned(result: Option<V>)

  datatype SetterPc = AcquireToSet | WriteValue | RaiseFlag | NotifyAll | ReleaseAfterSet | Finished

  datatype Owner = Nobody | Setter | Getter(id: nat)

  datatype State<V> = State(value: Option<V>, flag: bool, lock: Owner, setter: SetterPc, getters: map<nat, GetterPc<V>>)

  ghost predicate Init<V>(s: State<V>) {
    s == State(None, false, Nobody, AcquireToSet, map[])
  }

  ghost predicate GetterArrives<V>(s: State<V>, t: State<V>, id: nat) {
    id !in s.getters && t == s.(getters := s.getters[id := TestUnlocked])
  }

  /** A getter can take its next step. */
  predicate Enabled<V>(s: State<V>, id: nat) {
    id in s.getters &&
    match s.getters[id]
    case Acquire => s.lock == Nobody
    case Reacquire => s.lock == Nobody
    case Sleeping => false
    case Returned(_) => false
    case _ => true
  }

  function GetterMoves<V>(s: State<V>, id: nat): State<V>
    requires Enabled(s, id)
  {
    match s.getters[id]
    case TestUnlocked => s.(getters := s.getters[id := if s.flag then ReadValue else Acquire])
    case Acquire => s.(lock := Getter(id), getters := s.getters[id := TestLocked])
    case TestLocked =>
      if s.flag then s.(getters := s.getters[id := Release])
      else s.(lock := Nobody, getters := s.getters[id := Sleeping])
    case Reacquire => s.(lock := Getter(id), getters := s.getters[id := TestLocked])
    case Release => s.(lock := Nobody, getters := s.getters[id := ReadValue])
    case ReadValue => s.(getters := s.getters[id := Returned(s.value)])
    case _ => s
  }

  predicate SetterEnabled<V>(s: State<V>) {
    match s.setter
    case AcquireToSet => s.lock == Nobody
    case Finished => false
    case _ => true
  }

  function SetterMoves<V>(s: State<V>, v: V): State<V> {
    match s.setter
    case AcquireToSet => s.(lock := Setter, setter := WriteValue)
    case WriteValue => s.(value := Some(v), setter := RaiseFlag)
    case RaiseFlag => s.(flag := true, setter := NotifyAll)
    case NotifyAll =>
      s.(getters := map id | id in s.getters :: if s.getters[id].Sleeping? then Reacquire else s.getters[id],
         setter := ReleaseAfterSet)
    case ReleaseAfterSet => s.(lock := Nobody, setter := Finished)
    case Finished => s
  }

  ghost predicate Next<V(!new)>(s: State<V>, t: State<V>, v: V) {
    || (exists id :: GetterArrives(s, t, id))
    || (exists id :: Enabled(s, id) && t == GetterMoves(s, id))
    || (SetterEnabled(s) && t == SetterMoves(s, v))
  }

  ghost predicate IsExecution<V(!new)>(trace: seq<State<V>>, v: V) {
    |trace| > 0 && Init(trace[0]) && forall i :: 0 <= i < |trace| - 1 ==> Next(trace[i], trace[i + 1], v)
  }

  ghost predicate GetterOk<V>(s: State<V>, v: V, id: nat)
    requires id in s.getters
  {
    && ((s.getters[id].TestLocked? || s.getters[id].Release?) <==> s.lock == Getter(id))
    && (s.getters[id].Release? || s.getters[id].ReadValue? || s.getters[id].Returned? ==> s.flag)
    && (s.getters[id].Returned? ==> s.getters[id].result == Some(v))
    && (s.getters[id].Sleeping? ==>
        s.setter.AcquireToSet? || s.setter.WriteValue? || s.setter.RaiseFlag? || s.setter.NotifyAll?)
  }

  ghost predicate Inv<V>(s: State<V>, v: V) {
    && (s.lock == Setter <==> !s.setter.AcquireToSet? && !s.setter.Finished?)
    && (s.value == if s.setter.AcquireToSet? || s.setter.WriteValue? then None else Some(v))
    && (s.flag <==> s.setter.NotifyAll? || s.setter.ReleaseAfterSet? || s.setter.Finished?)
    && (s.lock.Getter? ==> s.lock.id in s.getters)
    && forall id :: id in s.getters ==> GetterOk(s, v, id)
  }

  lemma ArrivalKeepsInv<V>(s: State<V>, t: State<V>, v: V, id: nat)
    requires Inv(s, v) && GetterArrives(s, t, id)
    ensures Inv(t, v)
  {
    forall g | g in t.getters
      ensures GetterOk(t, v, g)
    {
      assert g != id ==> GetterOk(s, v, g);
    }
  }

  lemma GetterKeepsInv<V>(s: State<V>, v: V, id: nat)
    requires Inv(s, v) && Enabled(s, id)
    ensures Inv(GetterMoves(s, id), v)
  {
    var t := GetterMoves(s, id);
    assert GetterOk(s, v, id);
    forall g | g in t.getters
      ensures GetterOk(t, v, g)
    {
      assert GetterOk(s, v, g);
    }
  }

  lemma SetterKeepsInv<V>(s: State<V>, v: V)
    requires Inv(s, v) && SetterEnabled(s)
    ensures Inv(SetterMoves(s, v), v)
  {
    var t := SetterMoves(s, v);
    forall g | g in t.getters
      ensures GetterOk(t, v, g)
    {
      assert GetterOk(s, v, g);
    }
  }

  lemma NextKeepsInv<V(!new)>(s: State<V>, t: State<V>, v: V)
    requires Inv(s, v) && Next(s, t, v)
    ensures Inv(t, v)
  {
    hide Inv;
    if id :| GetterArrives(s, t, id) {
      ArrivalKeepsInv(s, t, v, id);
    } else if id :| Enabled(s, id) && t == GetterMoves(s, id) {
      GetterKeepsInv(s, v, id);
    } else {
      SetterKeepsInv(s, v);
    }
  }

  lemma {:induction false} ExecutionKeepsInv<V(!new)>(trace: seq<State<V>>, v: V, i: nat)
    requires IsExecution(trace, v) && i < |trace|
    ensures Inv(trace[i], v)
    decreases i
  {
    if i > 0 {
      ExecutionKeepsInv(trace, v, i - 1);
      assert Next(trace[i - 1], trace[i - 1 + 1], v);
      NextKeepsInv(trace[i - 1], trace[i], v);
    }
  }

  /** In every interleaving a getter that returns returns the set value, and once set has finished no getter sleeps. */
  lemma GettersReturnTheSetValue<V(!new)>(trace: seq<State<V>>, v: V, i: nat, id: nat)
    requires IsExecution(trace, v) && i < |trace| && id in trace[i].getters
    ensures trace[i].getters[id].Returned? ==> trace[i].getters[id].result == Some(v) && trace[i].flag
    ensures trace[i].setter.Finished? ==> !trace[i].getters[id].Sleeping?
  {
    ExecutionKeepsInv(trace, v, i);
    assert GetterOk(trace[i], v, id);
  }

  /** Until set has finished, the setter can move, or a getter that holds the lock can. */
  lemma SetterIsNeverStuck<V(!new)>(s: State<V>, v: V)
    requires Inv(s, v) && !s.setter.Finished?
    ensures SetterEnabled(s) || (s.lock.Getter? && Enabled(s, s.lock.id))
  {
    if s.lock.Getter? {
      assert GetterOk(s, v, s.lock.id);
    }
  }

  /** An upper bound on the steps a getter still has to take once the flag is up. */
  function StepsLeft<V>(pc: GetterPc<V>): nat {
    match pc
    case TestUnlocked => 5
    case Acquire => 4
    case Reacquire => 4
    case Sleeping => 5
    case TestLocked => 3
    case Release => 2
    case ReadValue => 1
    case Returned(_) => 0
  }

  /** After set has finished, a step brings the getter that takes it closer to its return, and changes no other. */
  lemma EveryStepCounts<V(!new)>(s: State<V>, t: State<V>, v: V, id: nat)
    requires Inv(s, v) && s.setter.Finished? && Next(s, t, v) && id in s.getters
    ensures t.setter.Finished? && id in t.getters
    ensures t.getters[id] != s.getters[id] ==> StepsLeft(t.getters[id]) < StepsLeft(s.getters[id])
  {
  }

  /** After set has finished, as long as some getter has not returned, some getter can take a step. */
  lemma NoDeadlock<V(!new)>(s: State<V>, v: V, id: nat) returns (mover: nat)
    requires Inv(s, v) && s.setter.Finished? && id in s.getters && !s.getters[id].Returned?
    ensures Enabled(s, mover) && StepsLeft(GetterMoves(s, mover).getters[mover]) < StepsLeft(s.getters[mover])
  {
    assert GetterOk(s, v, id);
    if s.lock.Getter? {
      mover := s.lock.id;
      assert GetterOk(s, v, mover);
    } else {
      mover := id;
    }
  }

  ghost function Pick(ids: set<nat>): nat
    requires ids != {}
  {
    var id :| id in ids; id
  }

  /** The steps these getters together still have to take, at most. */
  ghost function TotalLeft<V>(s: State<V>, ids: set<nat>): nat
    requires ids <= s.getters.Keys
  {
    if ids == {} then 0 else StepsLeft(s.getters[Pick(ids)]) + TotalLeft(s, ids - {Pick(ids)})
  }

  lemma {:induction false} TotalDrops<V>(s: State<V>, t: State<V>, ids: set<nat>, mover: nat)
    requires s.getters.Keys == t.getters.Keys && ids <= s.getters.Keys
    requires forall id :: id in ids && id != mover ==> t.getters[id] == s.getters[id]
    requires mover in s.getters && StepsLeft(t.getters[mover]) < StepsLeft(s.getters[mover])
    ensures if mover in ids then TotalLeft(t, ids) < TotalLeft(s, ids) else TotalLeft(t, ids) == TotalLeft(s, ids)
    decreases ids
  {
    if ids != {} {
      TotalDrops(s, t, ids - {Pick(ids)}, mover);
    }
  }

  /** Steps of the present getters only. */
  ghost predicate GettersOnly<V(!new)>(trace: seq<State<V>>) {
    && |trace| > 0
    && forall i :: 0 <= i < |trace| - 1 ==> SomeGetterMoves(trace[i], trace[i + 1])
  }

  ghost predicate SomeGetterMoves<V(!new)>(s: State<V>, t: State<V>) {
    exists id :: Enabled(s, id) && t == GetterMoves(s, id)
  }

  /** After set has finished, the present getters are done within a bounded number of steps of any interleaving:
      the bound holds for every execution, and an execution that cannot go on has every getter returned. */
  lemma {:induction false} AllGettersReturn<V(!new)>(trace: seq<State<V>>, v: V)
    requires GettersOnly(trace) && Inv(trace[0], v) && trace[0].setter.Finished?
    ensures |trace| - 1 <= TotalLeft(trace[0], trace[0].getters.Keys)
    ensures var last := trace[|trace| - 1];
            && last.getters.Keys == trace[0].getters.Keys
            && ((forall id :: !Enabled(last, id)) ==> forall id :: id in last.getters ==>
                last.getters[id] == Returned(Some(v)))
    decreases |trace|
  {
    var s := trace[0];
    if |trace| > 1 {
      var t := trace[1];
      assert SomeGetterMoves(trace[0], trace[0 + 1]);
      var id :| Enabled(s, id) && t == GetterMoves(s, id);
      NextKeepsInv(s, t, v);
      EveryStepCounts(s, t, v, id);
      assert GetterOk(s, v, id);
      TotalDrops(s, t, s.getters.Keys, id);
      forall i | 0 <= i < |trace[1..]| - 1
        ensures SomeGetterMoves(trace[1..][i], trace[1..][i + 1])
      {
        assert SomeGetterMoves(trace[i + 1], trace[i + 1 + 1]);
      }
      AllGettersReturn(trace[1..], v);
    } else {
      forall id | id in s.getters && !s.getters[id].Returned?
        ensures exists mover :: Enabled(s, mover)
      {
        var mover := NoDeadlock(s, v, id);
      }
      forall id | id in s.getters
        ensures GetterOk(s, v, id)
      {
      }
    }
  }
}
