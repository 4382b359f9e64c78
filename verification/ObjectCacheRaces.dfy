/** A hit in the shared cache against other runs for the same hash: exactly when it can be sure of its object. */
module ObjectCacheRaces {
  import opened ObjectCache

  /** The world after the next step of a run. */
  function Advance(w: World, pid: nat): World
    requires pid in w.runs
  {
    var r := w.runs[pid];
    var (r', fs') := Step(r, w.fs);
    World(fs', w.runs[pid := r'], if r.pc.TruncateHash? then w.torn - {r.target} else w.torn)
  }

  function Start(w: World, pid: nat, mode: Mode, target: string, hash: Hash): World {
    w.(runs := w.runs[pid := StartOf(mode, target, hash)])
  }

  /** Anything may happen but that the run ends early, or that its object or its cache entry is deleted. */
  ghost predicate NextLeaving(w: World, w': World, pid: nat)
    requires pid in w.runs
  {
    var r := w.runs[pid];
    || (exists q, mode, target, hash :: StartsRun(w, w', q, mode, target, hash))
    || (exists q :: RunSteps(w, w', q))
    || (exists q :: q != pid && RunEnds(w, w', q))
    || (exists p :: p != Entry(r.hash) && p != ObjectPath(r.target) && FileDeleted(w, w', p))
  }

  ghost predicate IsContinuation(trace: seq<World>, pid: nat) {
    && |trace| > 0
    && forall i :: 0 <= i < |trace| - 1 ==> pid in trace[i].runs && NextLeaving(trace[i], trace[i + 1], pid)
  }

  /** The run is done, and its object is not the one for its hash. */
  ghost predicate EndsWithoutObject(w: World, pid: nat) {
    && pid in w.runs && w.runs[pid].pc.Done?
    && !Holds(w.fs, ObjectPath(w.runs[pid].target), Object(w.runs[pid].hash))
  }

  /** The run has missed in the shared cache, and has not yet made room for its entry. */
  predicate WillUnlink(r: Run, hash: Hash) {
    && r.mode.Shared? && r.hash == hash
    && (r.pc.Compile? || (!r.fromCache && (r.pc.StatDst? || r.pc.UnlinkDst?)))
  }

  ghost predicate UnlinkPending(w: World, hash: Hash) {
    exists q :: q in w.runs && WillUnlink(w.runs[q], hash)
  }

  /** A hit that has its entry, and that no other run can take it from. */
  ghost predicate Secure(w: World, pid: nat) {
    && pid in w.runs
    && var r := w.runs[pid];
       && r.mode.Shared? && r.fromCache && !r.pc.FindObject? && !r.pc.Compile?
       && w.fs.Exists(Entry(r.hash)) && OnItsWay(r, w.fs) && !UnlinkPending(w, r.hash)
  }

  lemma StepKeepsEntry(q: Run, fs: FileSystem, torn: bool, hash: Hash)
    requires FilesOk(fs) && RunOk(q, fs, torn) && fs.Exists(Entry(hash)) && !WillUnlink(q, hash)
    ensures Step(q, fs).1.Exists(Entry(hash)) && !WillUnlink(Step(q, fs).0, hash)
  {
    hide EntriesOk, HashFilesDistinct;
  }

  /** What a secure hit needs are its entry and the state of its object path. */
  lemma SameFilesOnItsWay(r: Run, fs: FileSystem, fs': FileSystem)
    requires r.mode.Shared? && r.fromCache && OnItsWay(r, fs)
    requires !r.pc.ReadHash? && !r.pc.TruncateHash? && !r.pc.WriteHash?
    requires SameFile(fs, fs', ObjectPath(r.target)) && FilesOk(fs') && fs'.Exists(Entry(r.hash))
    ensures OnItsWay(r, fs')
  {
    assert fs'.AtMost(Entry(r.hash), Object(r.hash));
  }

  lemma OwnStepStaysSecure(w: World, pid: nat)
    requires Inv(w) && Secure(w, pid)
    ensures Secure(Advance(w, pid), pid)
  {
    var r := w.runs[pid];
    assert RunOk(r, w.fs, r.target in w.torn) && !WillUnlink(r, r.hash);
    StepKeepsEntry(r, w.fs, r.target in w.torn, r.hash);
    if !r.pc.Done? {
      ExchangeOnItsWay(r, w.fs);
    }
    var w' := Advance(w, pid);
    hide OnItsWay;
    OthersUnlinkNothing(w, w', pid);
    HitGoesOn(r, w.fs);
  }

  lemma HitGoesOn(r: Run, fs: FileSystem)
    requires r.fromCache && !r.pc.ReadHash? && !r.pc.FindObject? && !r.pc.Compile?
    ensures var r' := Step(r, fs).0;
            r'.mode == r.mode && r'.target == r.target && r'.hash == r.hash && r'.fromCache
            && !r'.pc.FindObject? && !r'.pc.Compile?
  {
  }

  lemma OthersUnlinkNothing(w: World, w': World, pid: nat)
    requires pid in w.runs && !UnlinkPending(w, w.runs[pid].hash)
    requires w'.runs.Keys == w.runs.Keys && forall q :: q in w.runs && q != pid ==> w'.runs[q] == w.runs[q]
    requires !WillUnlink(w'.runs[pid], w.runs[pid].hash)
    ensures !UnlinkPending(w', w.runs[pid].hash)
  {
  }

  lemma OtherStepStaysSecure(w: World, pid: nat, q: nat)
    requires Inv(w) && Secure(w, pid) && q in w.runs && q != pid
    ensures Secure(Advance(w, q), pid)
  {
    hide OnItsWay, Step, FilesOk, PairOk;
    var r, s := w.runs[pid], w.runs[q];
    var w' := Advance(w, q);
    assert Apart(s, r) && RunOk(s, w.fs, s.target in w.torn) && RunOk(r, w.fs, r.target in w.torn);
    StepLeavesOtherFiles(s, w.fs, s.target in w.torn, r.target);
    StepKeepsEntry(s, w.fs, s.target in w.torn, r.hash);
    StepKeepsFiles(s, w.fs, s.target in w.torn);
    SameFilesOnItsWay(r, w.fs, w'.fs);
    assert forall p :: p in w'.runs && p != q ==> w'.runs[p] == w.runs[p];
  }

  lemma DeletionStaysSecure(w: World, w': World, pid: nat, p: Path)
    requires Inv(w) && Secure(w, pid) && FileDeleted(w, w', p)
    requires p != Entry(w.runs[pid].hash) && p != ObjectPath(w.runs[pid].target)
    ensures Secure(w', pid)
  {
    DeletionKeepsFiles(w.fs, p);
    hide FilesOk, OnItsWay;
    assert RunOk(w.runs[pid], w.fs, w.runs[pid].target in w.torn);
    SameFilesOnItsWay(w.runs[pid], w.fs, w'.fs);
  }

  lemma NextStaysSecure(w: World, w': World, pid: nat)
    requires Inv(w) && Secure(w, pid) && NextLeaving(w, w', pid)
    ensures Inv(w') && Secure(w', pid) && w'.runs[pid].target == w.runs[pid].target
            && w'.runs[pid].hash == w.runs[pid].hash
  {
    hide Inv, OnItsWay, Step;
    if q, mode, target, hash :| StartsRun(w, w', q, mode, target, hash) {
      StartKeepsInv(w, w', q, mode, target, hash);
    } else if q :| RunSteps(w, w', q) {
      StepKeepsInv(w, w', q);
      assert w' == Advance(w, q);
      StepsKeepNames(w.runs[q], w.fs);
      if q == pid {
        OwnStepStaysSecure(w, pid);
      } else {
        OtherStepStaysSecure(w, pid, q);
      }
    } else if q :| q != pid && RunEnds(w, w', q) {
      EndKeepsInv(w, w', q);
    } else {
      var r := w.runs[pid];
      var p :| p != Entry(r.hash) && p != ObjectPath(r.target) && FileDeleted(w, w', p);
      DeletionKeepsInv(w, w', p);
      DeletionStaysSecure(w, w', pid, p);
    }
  }

  lemma StepsKeepNames(r: Run, fs: FileSystem)
    ensures Step(r, fs).0.target == r.target && Step(r, fs).0.hash == r.hash && Step(r, fs).0.mode == r.mode
  {
  }

  lemma {:induction false} SecureToTheEnd(trace: seq<World>, pid: nat)
    requires IsContinuation(trace, pid) && Inv(trace[0]) && Secure(trace[0], pid)
    ensures !EndsWithoutObject(trace[|trace| - 1], pid)
    decreases |trace|
  {
    if |trace| > 1 {
      hide Inv, Secure, NextLeaving;
      assert pid in trace[0].runs && NextLeaving(trace[0], trace[0 + 1], pid);
      NextStaysSecure(trace[0], trace[1], pid);
      TailContinues(trace, pid);
      SecureToTheEnd(trace[1..], pid);
    }
  }

  lemma TailContinues(trace: seq<World>, pid: nat)
    requires IsContinuation(trace, pid) && |trace| > 1
    ensures IsContinuation(trace[1..], pid)
  {
    hide NextLeaving;
    forall i | 0 <= i < |trace[1..]| - 1
      ensures pid in trace[1..][i].runs && NextLeaving(trace[1..][i], trace[1..][i + 1], pid)
    {
      assert pid in trace[i + 1].runs && NextLeaving(trace[i + 1], trace[i + 1 + 1], pid);
    }
  }

  lemma ContinuationGrows(w: World, rest: seq<World>, pid: nat)
    requires IsContinuation(rest, pid) && pid in w.runs && NextLeaving(w, rest[0], pid)
    ensures IsContinuation([w] + rest, pid)
  {
    hide NextLeaving;
    forall i | 0 <= i < |rest|
      ensures pid in ([w] + rest)[i].runs && NextLeaving(([w] + rest)[i], ([w] + rest)[i + 1], pid)
    {
      if i > 0 {
        assert pid in rest[i - 1].runs && NextLeaving(rest[i - 1], rest[i - 1 + 1], pid);
      }
    }
  }

  lemma AdvanceLeaves(w: World, pid: nat, q: nat)
    requires pid in w.runs && q in w.runs
    ensures NextLeaving(w, Advance(w, q), pid)
  {
    assert RunSteps(w, Advance(w, q), q);
  }

  /** Without its entry a hit that goes on removes its object and finds nothing to replace it. */
  lemma {:induction false} WithoutEntryLost(w: World, pid: nat) returns (trace: seq<World>)
    requires pid in w.runs && w.runs[pid].mode.Shared? && w.runs[pid].fromCache && !w.fs.Exists(Entry(w.runs[pid].hash))
    requires w.runs[pid].pc.StatDst? || (w.runs[pid].pc.UnlinkDst? && w.fs.Exists(w.runs[pid].Dst()))
          || (w.runs[pid].pc.StatSrc? && !w.fs.Exists(w.runs[pid].Dst()))
    ensures IsContinuation(trace, pid) && trace[0] == w && EndsWithoutObject(trace[|trace| - 1], pid)
    ensures trace[|trace| - 1].runs[pid] == w.runs[pid].At(Done)
    ensures !trace[|trace| - 1].fs.Exists(ObjectPath(w.runs[pid].target))
    decreases StepsLeft(w.runs[pid].pc)
  {
    var w' := Advance(w, pid);
    AdvanceLeaves(w, pid, pid);
    var rest;
    if w.runs[pid].pc.StatSrc? {
      rest := [w'];
    } else {
      rest := WithoutEntryLost(w', pid);
    }
    ContinuationGrows(w, rest, pid);
    trace := [w] + rest;
  }

  /** A run that has missed can take the entry from the hit before the hit links it. */
  lemma {:induction false} PendingUnlinkTakes(w: World, pid: nat, q: nat) returns (trace: seq<World>)
    requires pid in w.runs && w.runs[pid].mode.Shared? && w.runs[pid].fromCache && w.runs[pid].pc.StatDst?
    requires !w.fs.Exists(Entry(w.runs[pid].hash)) || (q in w.runs && WillUnlink(w.runs[q], w.runs[pid].hash))
    ensures IsContinuation(trace, pid) && trace[0] == w && EndsWithoutObject(trace[|trace| - 1], pid)
    ensures trace[|trace| - 1].runs[pid] == w.runs[pid].At(Done)
    ensures !trace[|trace| - 1].fs.Exists(ObjectPath(w.runs[pid].target))
    decreases if q in w.runs then StepsLeft(w.runs[q].pc) else 0
  {
    if !w.fs.Exists(Entry(w.runs[pid].hash)) {
      trace := WithoutEntryLost(w, pid);
    } else {
      var w' := Advance(w, q);
      AdvanceLeaves(w, pid, q);
      UnlinkComesCloser(w.runs[q], w.fs, w.runs[pid].hash);
      var rest := PendingUnlinkTakes(w', pid, q);
      ContinuationGrows(w, rest, pid);
      trace := [w] + rest;
    }
  }

  lemma UnlinkComesCloser(q: Run, fs: FileSystem, hash: Hash)
    requires WillUnlink(q, hash) && fs.Exists(Entry(hash))
    ensures StepsLeft(Step(q, fs).0.pc) < StepsLeft(q.pc)
    ensures !Step(q, fs).1.Exists(Entry(hash)) || WillUnlink(Step(q, fs).0, hash)
  {
  }

  /** In every execution: a hit in the shared cache that is about to exchange its object is sure to deliver it, whatever
      other runs do, exactly when its entry is there and no run that missed has still to unlink it. By StepsGoOn the
      hit is done after at most six steps of its own. */
  lemma HitDeliversIffEntrySecure(past: seq<World>, pid: nat)
    requires IsExecution(past)
    requires var w := past[|past| - 1];
             pid in w.runs && w.runs[pid].mode.Shared? && w.runs[pid].fromCache && w.runs[pid].pc.StatDst?
    ensures var w := past[|past| - 1];
            (forall trace :: IsContinuation(trace, pid) && trace[0] == w ==>
                !EndsWithoutObject(trace[|trace| - 1], pid))
            <==> w.fs.Exists(Entry(w.runs[pid].hash)) && !UnlinkPending(w, w.runs[pid].hash)
  {
    ExecutionKeepsInv(past, |past| - 1);
    var w := past[|past| - 1];
    var hash := w.runs[pid].hash;
    if w.fs.Exists(Entry(hash)) && !UnlinkPending(w, hash) {
      assert w.fs.AtMost(Entry(hash), Object(hash));
      forall trace | IsContinuation(trace, pid) && trace[0] == w
        ensures !EndsWithoutObject(trace[|trace| - 1], pid)
      {
        SecureToTheEnd(trace, pid);
      }
    } else {
      var q :| !w.fs.Exists(Entry(hash)) || (q in w.runs && WillUnlink(w.runs[q], hash));
      var trace := PendingUnlinkTakes(w, pid, q);
      assert IsContinuation(trace, pid) && trace[0] == w && EndsWithoutObject(trace[|trace| - 1], pid);
    }
  }

  lemma ExecutionGrows(trace: seq<World>, w: World)
    requires IsExecution(trace) && Next(trace[|trace| - 1], w)
    ensures IsExecution(trace + [w])
  {
    hide Next, Init;
    var longer := trace + [w];
    forall i | 0 <= i < |longer| - 1
      ensures Next(longer[i], longer[i + 1])
    {
      if i < |trace| - 1 {
        assert Next(trace[i], trace[i + 1]);
      }
    }
  }

  /** An execution goes on as a continuation. */
  lemma {:induction false} ExecutionContinues(past: seq<World>, rest: seq<World>, pid: nat) returns (whole: seq<World>)
    requires IsExecution(past) && IsContinuation(rest, pid) && past[|past| - 1] == rest[0]
    ensures IsExecution(whole) && whole[0] == past[0] && whole[|whole| - 1] == rest[|rest| - 1]
    decreases |rest|
  {
    if |rest| == 1 {
      whole := past;
    } else {
      assert pid in rest[0].runs && NextLeaving(rest[0], rest[0 + 1], pid);
      LeavingIsNext(rest[0], rest[1], pid);
      ExecutionGrows(past, rest[1]);
      TailContinues(rest, pid);
      whole := ExecutionContinues(past + [rest[1]], rest[1..], pid);
    }
  }

  lemma LeavingIsNext(w: World, w': World, pid: nat)
    requires pid in w.runs && NextLeaving(w, w', pid)
    ensures Next(w, w')
  {
  }

  lemma RunAdvances(trace: seq<World>, pid: nat) returns (longer: seq<World>)
    requires IsExecution(trace) && pid in trace[|trace| - 1].runs
    ensures IsExecution(longer) && longer[0] == trace[0] && longer[|longer| - 1] == Advance(trace[|trace| - 1], pid)
  {
    hide Step;
    var w := trace[|trace| - 1];
    assert RunSteps(w, Advance(w, pid), pid);
    ExecutionGrows(trace, Advance(w, pid));
    longer := trace + [Advance(w, pid)];
  }

  lemma RunArrives(trace: seq<World>, pid: nat, target: string, hash: Hash) returns (longer: seq<World>)
    requires IsExecution(trace) && pid !in trace[|trace| - 1].runs && |hash| == HASH_LENGTH
    requires var w := trace[|trace| - 1]; forall q :: q in w.runs ==> w.runs[q].target != target
    ensures IsExecution(longer) && longer[0] == trace[0]
    ensures longer[|longer| - 1] == Start(trace[|trace| - 1], pid, Shared, target, hash)
  {
    var w := trace[|trace| - 1];
    assert StartsRun(w, Start(w, pid, Shared, target, hash), pid, Shared, target, hash);
    ExecutionGrows(trace, Start(w, pid, Shared, target, hash));
    longer := trace + [Start(w, pid, Shared, target, hash)];
  }

  const EMPTY := World(FileSystem(map[], []), map[], {})

  /** How it comes to that, from an empty file system: two runs miss, the second files its object, a third hits, and
      then the first makes room for its own object. The third ends with no object at all. */
  lemma HitLosesRace(a: string, b: string, c: string, hash: Hash) returns (trace: seq<World>)
    requires a != b && b != c && a != c && |hash| == 32
    ensures IsExecution(trace) && trace[0] == EMPTY
    ensures var w := trace[|trace| - 1];
            2 in w.runs && w.runs[2] == Run(Shared, b, hash, true, Done) && !w.fs.Exists(ObjectPath(b))
  {
    trace := TwoMisses(a, c, hash);
    trace := RunArrives(trace, 2, b, hash);
    trace := RunAdvances(trace, 2);
    var rest := PendingUnlinkTakes(trace[|trace| - 1], 2, 0);
    trace := ExecutionContinues(trace, rest, 2);
  }

  /** The first run is about to compile, and the second is done. */
  lemma TwoMisses(a: string, c: string, hash: Hash) returns (trace: seq<World>)
    requires a != c && |hash| == HASH_LENGTH
    ensures IsExecution(trace) && trace[0] == EMPTY
    ensures var w := trace[|trace| - 1];
            && w.runs.Keys == {0, 1} && w.fs.Exists(Entry(hash))
            && w.runs[0] == StartOf(Shared, a, hash).At(Compile) && w.runs[1].target == c
  {
    assert Init(EMPTY);
    trace := RunArrives([EMPTY], 0, a, hash);
    trace := RunAdvances(trace, 0);
    trace := RunArrives(trace, 1, c, hash);
    trace := RunAdvances(trace, 1);
    var w := trace[|trace| - 1];
    assert w.runs == map[0 := StartOf(Shared, a, hash).At(Compile), 1 := StartOf(Shared, c, hash).At(Compile)];
    trace := MissFiles(trace, 1);
  }

  /** A miss goes on undisturbed until it has filed its object. */
  lemma MissFiles(past: seq<World>, pid: nat) returns (trace: seq<World>)
    requires IsExecution(past)
    requires var w := past[|past| - 1];
             pid in w.runs && w.fs == EMPTY.fs && w.runs[pid].mode.Shared? && w.runs[pid].pc.Compile?
    ensures IsExecution(trace) && trace[0] == past[0]
    ensures var w, w' := past[|past| - 1], trace[|trace| - 1];
            && pid in w'.runs && w'.runs == w.runs[pid := w'.runs[pid]] && w'.runs[pid].target == w.runs[pid].target
            && w'.fs.Exists(Entry(w.runs[pid].hash))
  {
    trace := RunAdvances(past, pid);
    trace := RunAdvances(trace, pid);
    trace := RunAdvances(trace, pid);
    trace := RunAdvances(trace, pid);
  }
}
