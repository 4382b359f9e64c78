/** The object cache of the clang plugin (clang-hash.cc): compiler runs look an object up by hash, and an exit
    handler exchanges hard links with the cache. Every system call is one atomic step of one run. */
module ObjectCache {

  type Hash = string
  type Inode = nat

  const HASH_LENGTH := 32

  /** What the compiler writes for a hash is a function of the hash. */
  datatype Content = Object(hash: Hash) | HashText(text: string) | Other

  /** The files around an object file, and the entries of a shared cache directory. */
  datatype Path = ObjectPath(target: string) | HashPath(target: string) | CopyPath(target: string) | Entry(hash: Hash)

  /** Names refer to inodes; hard links share one. */
  datatype FileSystem = FileSystem(names: map<Path, Inode>, inodes: seq<Content>) {
    predicate Exists(p: Path) {
      p in names && names[p] < |inodes|
    }

    function Read(p: Path): Content
      requires Exists(p)
    {
      inodes[names[p]]
    }

    /** The file, if there is one, has this content. */
    predicate AtMost(p: Path, c: Content) {
      Exists(p) ==> Read(p) == c
    }

    function Unlink(p: Path): FileSystem {
      this.(names := names - {p})
    }

    function Link(src: Path, dst: Path): FileSystem
      requires src in names
    {
      this.(names := names[dst := names[src]])
    }

    /** A new file gets an inode of its own. */
    function Create(p: Path, c: Content): FileSystem {
      FileSystem(names[p := |inodes|], inodes + [c])
    }

    function Write(i: Inode, c: Content): FileSystem {
      if i < |inodes| then this.(inodes := inodes[i := c]) else this
    }
  }

  datatype Mode = PerObject | Shared

  /** The next system call of a run. */
  datatype Pc = ReadHash | FindObject | Compile | StatDst | UnlinkDst | StatSrc | LinkDst | TruncateHash
    | WriteHash(file: Inode) | Done

  datatype Run = Run(mode: Mode, target: string, hash: Hash, fromCache: bool, pc: Pc) {
    /** Where the cached object for this run lives. */
    function Cached(): Path {
      if mode.Shared? then Entry(hash) else CopyPath(target)
    }

    function Src(): Path {
      if fromCache then Cached() else ObjectPath(target)
    }

    function Dst(): Path {
      if fromCache then ObjectPath(target) else Cached()
    }

    function At(next: Pc): Run {
      this.(pc := next)
    }
  }

  function StartOf(mode: Mode, target: string, hash: Hash): Run {
    Run(mode, target, hash, false, if mode.Shared? then FindObject else ReadHash)
  }

  /** One step of a run. */
  function Step(r: Run, fs: FileSystem): (Run, FileSystem) {
    match r.pc
    case ReadHash =>
      var known := fs.Exists(HashPath(r.target)) && fs.Read(HashPath(r.target)) == HashText(r.hash);
      (r.At(if known then FindObject else Compile), fs)
    case FindObject =>
      if fs.Exists(r.Cached()) then (r.(fromCache := true, pc := StatDst), fs) else (r.At(Compile), fs)
    case Compile =>
      (r.(fromCache := false, pc := StatDst), fs.Create(ObjectPath(r.target), Object(r.hash)))
    case StatDst =>
      (r.At(if fs.Exists(r.Dst()) then UnlinkDst else StatSrc), fs)
    case UnlinkDst =>
      if fs.Exists(r.Dst()) then (r.At(StatSrc), fs.Unlink(r.Dst())) else (r.At(Done), fs)
    case StatSrc =>
      (r.At(if fs.Exists(r.Src()) then LinkDst else Done), fs)
    case LinkDst =>
      if fs.Exists(r.Src()) && !fs.Exists(r.Dst()) then
        (r.At(if !r.fromCache && r.mode.PerObject? then TruncateHash else Done), fs.Link(r.Src(), r.Dst()))
      else (r.At(Done), fs)
    case TruncateHash =>
      if fs.Exists(HashPath(r.target)) then
        (r.At(WriteHash(fs.names[HashPath(r.target)])), fs.Write(fs.names[HashPath(r.target)], HashText("")))
      else
        (r.At(WriteHash(|fs.inodes|)), fs.Create(HashPath(r.target), HashText("")))
    case WriteHash(file) =>
      (r.At(Done), fs.Write(file, HashText(r.hash)))
    case Done =>
      (r, fs)
  }

  /** All runs that have not exited, the file system, and the objects on which a run was killed between linking
      the new copy and truncating the hash file, with no completed miss since. */
  datatype World = World(fs: FileSystem, runs: map<nat, Run>, torn: set<string>)

  ghost predicate StartsRun(w: World, w': World, pid: nat, mode: Mode, target: string, hash: Hash) {
    && pid !in w.runs && |hash| == HASH_LENGTH
    && (forall q :: q in w.runs ==> w.runs[q].target != target)
    && w' == w.(runs := w.runs[pid := StartOf(mode, target, hash)])
  }

  ghost predicate RunSteps(w: World, w': World, pid: nat) {
    && pid in w.runs
    && var r := w.runs[pid];
       var (r', fs') := Step(r, w.fs);
       w' == World(fs', w.runs[pid := r'], if r.pc.TruncateHash? then w.torn - {r.target} else w.torn)
  }

  /** A run exits or is killed, at any point. */
  ghost predicate RunEnds(w: World, w': World, pid: nat) {
    && pid in w.runs
    && w' == World(w.fs, w.runs - {pid},
                   if w.runs[pid].pc.TruncateHash? then w.torn + {w.runs[pid].target} else w.torn)
  }

  ghost predicate FileDeleted(w: World, w': World, p: Path) {
    w' == w.(fs := w.fs.Unlink(p))
  }

  ghost predicate Next(w: World, w': World) {
    || (exists pid, mode, target, hash :: StartsRun(w, w', pid, mode, target, hash))
    || (exists pid :: RunSteps(w, w', pid))
    || (exists pid :: RunEnds(w, w', pid))
    || (exists p :: FileDeleted(w, w', p))
  }

  /** Names refer to inodes, and exactly the hash files are texts. */
  ghost predicate KindsOk(fs: FileSystem) {
    forall p :: p in fs.names ==> fs.names[p] < |fs.inodes| && (p.HashPath? <==> fs.inodes[fs.names[p]].HashText?)
  }

  /** Every cache entry is the object for the hash it is filed under. */
  ghost predicate EntriesOk(fs: FileSystem) {
    forall h :: fs.AtMost(Entry(h), Object(h))
  }

  ghost predicate HashFilesDistinct(fs: FileSystem) {
    forall a, b :: HashPath(a) in fs.names && HashPath(b) in fs.names && a != b ==>
      fs.names[HashPath(a)] != fs.names[HashPath(b)]
  }

  ghost predicate FilesOk(fs: FileSystem) {
    KindsOk(fs) && EntriesOk(fs) && HashFilesDistinct(fs)
  }

  /** No other target's hash file is this one. */
  ghost predicate OwnHashFile(fs: FileSystem, target: string, file: Inode) {
    forall o :: o != target && HashPath(o) in fs.names ==> fs.names[HashPath(o)] != file
  }

  /** The runs write different hash files. */
  ghost predicate Apart(r: Run, q: Run) {
    r.target != q.target && (r.pc.WriteHash? && q.pc.WriteHash? ==> r.pc.file != q.pc.file)
  }

  /** If the hash file holds a hash and a copy exists, the copy is the object for that hash. */
  ghost predicate PairOk(fs: FileSystem, target: string) {
    fs.Exists(HashPath(target)) && fs.Read(HashPath(target)).HashText?
      && |fs.Read(HashPath(target)).text| == HASH_LENGTH ==>
      fs.AtMost(CopyPath(target), Object(fs.Read(HashPath(target)).text))
  }

  /** What a run may rely on about its own files. */
  ghost predicate RunOk(r: Run, fs: FileSystem, torn: bool) {
    var objectOk := fs.AtMost(ObjectPath(r.target), Object(r.hash));
    var copyOk := r.mode.PerObject? ==> fs.AtMost(CopyPath(r.target), Object(r.hash));
    && |r.hash| == HASH_LENGTH
    && (r.pc.ReadHash? || r.pc.TruncateHash? || r.pc.WriteHash? ==> r.mode.PerObject?)
    && match r.pc
       case ReadHash => true
       case FindObject => copyOk || torn
       case Compile => true
       case StatDst => if r.fromCache then copyOk || torn else objectOk
       case UnlinkDst => if r.fromCache then copyOk || torn else objectOk
       case StatSrc =>
         if r.fromCache then (copyOk || torn) && !fs.Exists(ObjectPath(r.target))
         else objectOk && (r.mode.PerObject? ==> !fs.Exists(CopyPath(r.target)))
       case LinkDst =>
         if r.fromCache then (copyOk || torn) && !fs.Exists(ObjectPath(r.target))
         else objectOk && (r.mode.PerObject? ==> !fs.Exists(CopyPath(r.target)))
       case TruncateHash => !r.fromCache && objectOk && copyOk
       case WriteHash(file) =>
         && !r.fromCache && objectOk && copyOk
         && file < |fs.inodes| && fs.inodes[file].HashText? && OwnHashFile(fs, r.target, file)
         && (fs.Exists(HashPath(r.target)) ==> fs.names[HashPath(r.target)] == file && fs.inodes[file].text == "")
       case Done => objectOk || (torn && r.fromCache && r.mode.PerObject?)
  }

  ghost predicate Window(w: World, target: string) {
    exists pid :: pid in w.runs && w.runs[pid].target == target && w.runs[pid].pc.TruncateHash?
  }

  ghost predicate Inv(w: World) {
    && FilesOk(w.fs)
    && (forall p, q :: p in w.runs && q in w.runs && p != q ==> Apart(w.runs[p], w.runs[q]))
    && (forall p :: p in w.runs ==> RunOk(w.runs[p], w.fs, w.runs[p].target in w.torn))
    && (forall o :: PairOk(w.fs, o) || o in w.torn || Window(w, o))
  }

  ghost predicate Init(w: World) {
    w.runs == map[] && w.torn == {} && FilesOk(w.fs) && forall o :: PairOk(w.fs, o)
  }

  ghost predicate IsExecution(trace: seq<World>) {
    |trace| > 0 && Init(trace[0]) && forall i :: 0 <= i < |trace| - 1 ==> Next(trace[i], trace[i + 1])
  }

  lemma StepKeepsKinds(r: Run, fs: FileSystem, torn: bool)
    requires KindsOk(fs) && RunOk(r, fs, torn)
    ensures KindsOk(Step(r, fs).1)
  {
  }

  lemma StepKeepsEntries(r: Run, fs: FileSystem, torn: bool)
    requires KindsOk(fs) && EntriesOk(fs) && RunOk(r, fs, torn)
    ensures EntriesOk(Step(r, fs).1)
  {
    var fs' := Step(r, fs).1;
    forall h
      ensures fs'.AtMost(Entry(h), Object(h))
    {
      assert fs.AtMost(Entry(h), Object(h));
    }
  }

  lemma StepKeepsHashFilesDistinct(r: Run, fs: FileSystem, torn: bool)
    requires KindsOk(fs) && HashFilesDistinct(fs) && RunOk(r, fs, torn)
    ensures HashFilesDistinct(Step(r, fs).1)
  {
  }

  lemma StepKeepsFiles(r: Run, fs: FileSystem, torn: bool)
    requires FilesOk(fs) && RunOk(r, fs, torn)
    ensures FilesOk(Step(r, fs).1)
  {
    hide KindsOk, EntriesOk, HashFilesDistinct, RunOk, Step;
    StepKeepsKinds(r, fs, torn);
    StepKeepsEntries(r, fs, torn);
    StepKeepsHashFilesDistinct(r, fs, torn);
  }

  lemma StepKeepsRun(r: Run, fs: FileSystem, torn: bool)
    requires FilesOk(fs) && RunOk(r, fs, torn)
    requires PairOk(fs, r.target) || torn || r.pc.TruncateHash?
    ensures var (r', fs') := Step(r, fs);
            RunOk(r', fs', torn && !r.pc.TruncateHash?)
  {
  }

  lemma StepKeepsPair(r: Run, fs: FileSystem, torn: bool)
    requires FilesOk(fs) && RunOk(r, fs, torn)
    requires PairOk(fs, r.target) || torn || r.pc.TruncateHash?
    ensures var (r', fs') := Step(r, fs);
            PairOk(fs', r.target) || (torn && !r.pc.TruncateHash?) || r'.pc.TruncateHash?
  {
  }

  ghost predicate SameFile(fs: FileSystem, fs': FileSystem, p: Path) {
    && (fs.Exists(p) <==> fs'.Exists(p))
    && (fs.Exists(p) ==> fs.names[p] == fs'.names[p] && fs.Read(p) == fs'.Read(p))
  }

  /** Another target's files, as they are on both sides of a step. */
  ghost predicate SameFiles(fs: FileSystem, fs': FileSystem, o: string) {
    SameFile(fs, fs', ObjectPath(o)) && SameFile(fs, fs', CopyPath(o)) && SameFile(fs, fs', HashPath(o))
  }

  /** A step of one run is invisible to the files of another target. */
  lemma StepLeavesOtherFiles(r: Run, fs: FileSystem, torn: bool, o: string)
    requires FilesOk(fs) && RunOk(r, fs, torn) && o != r.target
    ensures SameFiles(fs, Step(r, fs).1, o)
  {
    hide EntriesOk;
  }

  lemma StepLeavesOtherHandles(r: Run, fs: FileSystem, torn: bool, q: Run, qTorn: bool)
    requires FilesOk(fs) && RunOk(r, fs, torn) && RunOk(q, fs, qTorn) && Apart(r, q) && q.pc.WriteHash?
    ensures var fs' := Step(r, fs).1;
            q.pc.file < |fs'.inodes| && fs'.inodes[q.pc.file] == fs.inodes[q.pc.file]
              && OwnHashFile(fs', q.target, q.pc.file)
  {
    hide EntriesOk;
  }

  lemma SameFilesKeepRun(fs: FileSystem, fs': FileSystem, q: Run, torn: bool)
    requires RunOk(q, fs, torn) && SameFiles(fs, fs', q.target)
    requires q.pc.WriteHash? ==>
               q.pc.file < |fs'.inodes| && fs'.inodes[q.pc.file] == fs.inodes[q.pc.file]
                 && OwnHashFile(fs', q.target, q.pc.file)
    ensures RunOk(q, fs', torn)
  {
  }

  lemma StepKeepsOthers(r: Run, fs: FileSystem, torn: bool, q: Run, qTorn: bool)
    requires FilesOk(fs) && RunOk(r, fs, torn) && RunOk(q, fs, qTorn) && Apart(r, q)
    ensures RunOk(q, Step(r, fs).1, qTorn) && Apart(Step(r, fs).0, q)
  {
    StepKeepsApart(r, fs, q, qTorn);
    hide RunOk, FilesOk, Step, SameFiles, OwnHashFile;
    StepLeavesOtherFiles(r, fs, torn, q.target);
    if q.pc.WriteHash? {
      StepLeavesOtherHandles(r, fs, torn, q, qTorn);
    }
    SameFilesKeepRun(fs, Step(r, fs).1, q, qTorn);
  }

  lemma StepKeepsApart(r: Run, fs: FileSystem, q: Run, qTorn: bool)
    requires FilesOk(fs) && RunOk(q, fs, qTorn) && Apart(r, q)
    ensures Apart(Step(r, fs).0, q)
  {
  }

  lemma StepKeepsOtherPairs(r: Run, fs: FileSystem, torn: bool, o: string)
    requires FilesOk(fs) && RunOk(r, fs, torn)
    requires PairOk(fs, o) && o != r.target
    ensures PairOk(Step(r, fs).1, o)
  {
    StepLeavesOtherFiles(r, fs, torn, o);
  }

  lemma DeletionKeepsFiles(fs: FileSystem, p: Path)
    requires FilesOk(fs)
    ensures FilesOk(fs.Unlink(p))
  {
    forall h
      ensures fs.Unlink(p).AtMost(Entry(h), Object(h))
    {
      assert fs.AtMost(Entry(h), Object(h));
    }
  }

  lemma DeletionKeepsRun(fs: FileSystem, p: Path, r: Run, torn: bool)
    requires RunOk(r, fs, torn)
    ensures RunOk(r, fs.Unlink(p), torn)
  {
  }

  lemma DeletionKeepsPair(fs: FileSystem, p: Path, o: string)
    requires PairOk(fs, o)
    ensures PairOk(fs.Unlink(p), o)
  {
  }

  /** A run that is not itself in the window finds its pair in order, unless the target is torn. */
  lemma OwnPair(w: World, pid: nat)
    requires Inv(w) && pid in w.runs
    ensures var r := w.runs[pid]; PairOk(w.fs, r.target) || r.target in w.torn || r.pc.TruncateHash?
  {
    var r := w.runs[pid];
    if p :| p in w.runs && w.runs[p].target == r.target && w.runs[p].pc.TruncateHash? {
      assert p == pid || !Apart(w.runs[p], r);
    }
  }

  lemma StepKeepsPairs(w: World, w': World, pid: nat, o: string)
    requires Inv(w) && RunSteps(w, w', pid)
    ensures PairOk(w'.fs, o) || o in w'.torn || Window(w', o)
  {
    var r := w.runs[pid];
    var torn := r.target in w.torn;
    assert PairOk(w.fs, o) || o in w.torn || Window(w, o);
    if o == r.target {
      OwnPair(w, pid);
      StepKeepsPair(r, w.fs, torn);
      assert pid in w'.runs && w'.runs[pid].target == o;
    } else if p :| p in w.runs && w.runs[p].target == o && w.runs[p].pc.TruncateHash? {
      assert p in w'.runs && w'.runs[p] == w.runs[p];
    } else if o !in w.torn {
      StepKeepsOtherPairs(r, w.fs, torn, o);
    }
  }

  lemma StepKeepsInv(w: World, w': World, pid: nat)
    requires Inv(w) && RunSteps(w, w', pid)
    ensures Inv(w')
  {
    hide PairOk, Window, FilesOk, Step, RunOk;
    var r := w.runs[pid];
    var torn := r.target in w.torn;
    OwnPair(w, pid);
    StepKeepsFiles(r, w.fs, torn);
    StepKeepsRun(r, w.fs, torn);
    forall q | q in w'.runs && q != pid
      ensures RunOk(w'.runs[q], w'.fs, w'.runs[q].target in w'.torn) && Apart(w'.runs[pid], w'.runs[q])
    {
      StepKeepsOthers(r, w.fs, torn, w.runs[q], w.runs[q].target in w.torn);
    }
    StepKeepsTarget(r, w.fs);
    forall o {
      StepKeepsPairs(w, w', pid, o);
    }
  }

  lemma StepKeepsTarget(r: Run, fs: FileSystem)
    ensures Step(r, fs).0.target == r.target
  {
  }

  lemma StartKeepsInv(w: World, w': World, pid: nat, mode: Mode, target: string, hash: Hash)
    requires Inv(w) && StartsRun(w, w', pid, mode, target, hash)
    ensures Inv(w')
  {
    assert RunOk(StartOf(mode, target, hash), w.fs, target in w.torn);
    hide RunOk, PairOk, FilesOk;
    forall o | Window(w, o)
      ensures Window(w', o)
    {
      var p :| p in w.runs && w.runs[p].target == o && w.runs[p].pc.TruncateHash?;
      assert p in w'.runs && w'.runs[p] == w.runs[p];
    }
  }

  lemma EndKeepsInv(w: World, w': World, pid: nat)
    requires Inv(w) && RunEnds(w, w', pid)
    ensures Inv(w')
  {
    hide RunOk, PairOk, FilesOk;
    forall p | p in w'.runs
      ensures RunOk(w'.runs[p], w'.fs, w'.runs[p].target in w'.torn)
    {
      assert Apart(w.runs[p], w.runs[pid]);
    }
    forall o | Window(w, o)
      ensures o in w'.torn || Window(w', o)
    {
      var p :| p in w.runs && w.runs[p].target == o && w.runs[p].pc.TruncateHash?;
      if p != pid {
        assert p in w'.runs && w'.runs[p] == w.runs[p];
      }
    }
  }

  lemma DeletionKeepsInv(w: World, w': World, p: Path)
    requires Inv(w) && FileDeleted(w, w', p)
    ensures Inv(w')
  {
    forall q | q in w'.runs {
      DeletionKeepsRun(w.fs, p, w.runs[q], w.runs[q].target in w.torn);
    }
    DeletionKeepsFiles(w.fs, p);
    forall o
      ensures PairOk(w'.fs, o) || o in w'.torn || Window(w', o)
    {
      if Window(w, o) {
        var q :| q in w.runs && w.runs[q].target == o && w.runs[q].pc.TruncateHash?;
        assert q in w'.runs;
      } else if o !in w.torn {
        DeletionKeepsPair(w.fs, p, o);
      }
    }
  }

  lemma {:induction false} ExecutionKeepsInv(trace: seq<World>, i: nat)
    requires IsExecution(trace) && i < |trace|
    ensures Inv(trace[i])
    decreases i
  {
    if i > 0 {
      ExecutionKeepsInv(trace, i - 1);
      var w, w' := trace[i - 1], trace[i];
      assert trace[i - 1 + 1] == w' && Next(w, w');
      if pid, mode, target, hash :| StartsRun(w, w', pid, mode, target, hash) {
        StartKeepsInv(w, w', pid, mode, target, hash);
      } else if pid :| RunSteps(w, w', pid) {
        StepKeepsInv(w, w', pid);
      } else if pid :| RunEnds(w, w', pid) {
        EndKeepsInv(w, w', pid);
      } else {
        var p :| FileDeleted(w, w', p);
        DeletionKeepsInv(w, w', p);
      }
    }
  }

  /** Under every interleaving, with runs killed and files deleted at any point, an entry of the shared cache is the
      object for its hash, and a finished run has left no wrong object behind: in the shared mode always, and in the
      per-object mode unless the target is torn. */
  lemma CacheNeverDeliversWrongObject(trace: seq<World>, i: nat, pid: nat, h: Hash)
    requires IsExecution(trace) && i < |trace|
    ensures trace[i].fs.AtMost(Entry(h), Object(h))
    ensures pid in trace[i].runs && trace[i].runs[pid].pc.Done? ==>
              var r := trace[i].runs[pid];
              trace[i].fs.AtMost(ObjectPath(r.target), Object(r.hash))
              || (r.mode.PerObject? && r.fromCache && r.target in trace[i].torn)
  {
    ExecutionKeepsInv(trace, i);
  }

  function StepsLeft(pc: Pc): nat {
    match pc
    case ReadHash => 9
    case FindObject => 8
    case Compile => 7
    case StatDst => 6
    case UnlinkDst => 5
    case StatSrc => 4
    case LinkDst => 3
    case TruncateHash => 2
    case WriteHash(_) => 1
    case Done => 0
  }

  /** A run that nobody interferes with. */
  function Completed(r: Run, fs: FileSystem): (Run, FileSystem)
    decreases StepsLeft(r.pc)
  {
    if r.pc.Done? then (r, fs)
    else
      var (r', fs') := Step(r, fs);
      Completed(r', fs')
  }

  /** The first `n` steps of such a run. */
  function Stepped(r: Run, fs: FileSystem, n: nat): (Run, FileSystem)
    decreases n
  {
    if n == 0 then (r, fs)
    else
      var (r', fs') := Step(r, fs);
      Stepped(r', fs', n - 1)
  }

  ghost predicate Holds(fs: FileSystem, p: Path, c: Content) {
    fs.Exists(p) && fs.Read(p) == c
  }

  /** The target's object is the one for the hash, the cache has it too, and the next run will see that. */
  ghost predicate Delivered(fs: FileSystem, mode: Mode, target: string, hash: Hash) {
    && Holds(fs, ObjectPath(target), Object(hash))
    && Holds(fs, if mode.Shared? then Entry(hash) else CopyPath(target), Object(hash))
    && (mode.PerObject? ==> Holds(fs, HashPath(target), HashText(hash)))
  }

  /** The state of an undisturbed run on its way to a delivered object. */
  ghost predicate OnItsWay(r: Run, fs: FileSystem) {
    var known := r.mode.PerObject? ==> Holds(fs, HashPath(r.target), HashText(r.hash));
    var sourced := Holds(fs, r.Src(), Object(r.hash)) && (r.fromCache ==> known);
    match r.pc
    case ReadHash => true
    case FindObject => known
    case Compile => true
    case StatDst => sourced
    case UnlinkDst => sourced && fs.Exists(r.Dst())
    case StatSrc => sourced && !fs.Exists(r.Dst())
    case LinkDst => sourced && !fs.Exists(r.Dst())
    case TruncateHash => sourced && Holds(fs, r.Dst(), Object(r.hash))
    case WriteHash(file) =>
      sourced && Holds(fs, r.Dst(), Object(r.hash)) && Holds(fs, HashPath(r.target), HashText(""))
        && fs.names[HashPath(r.target)] == file
    case Done => Delivered(fs, r.mode, r.target, r.hash)
  }

  lemma DecisionOnItsWay(r: Run, fs: FileSystem)
    requires FilesOk(fs) && RunOk(r, fs, false) && PairOk(fs, r.target) && OnItsWay(r, fs)
    requires r.pc.ReadHash? || r.pc.FindObject? || r.pc.Compile?
    ensures OnItsWay(Step(r, fs).0, Step(r, fs).1)
  {
  }

  lemma ExchangeOnItsWay(r: Run, fs: FileSystem)
    requires FilesOk(fs) && OnItsWay(r, fs)
    requires r.pc.StatDst? || r.pc.UnlinkDst? || r.pc.StatSrc? || r.pc.LinkDst?
    ensures OnItsWay(Step(r, fs).0, Step(r, fs).1)
  {
  }

  lemma HashFileOnItsWay(r: Run, fs: FileSystem)
    requires FilesOk(fs) && RunOk(r, fs, false) && OnItsWay(r, fs)
    requires r.pc.TruncateHash? || r.pc.WriteHash? || r.pc.Done?
    ensures OnItsWay(Step(r, fs).0, Step(r, fs).1)
  {
  }

  lemma StepOnItsWay(r: Run, fs: FileSystem)
    requires FilesOk(fs) && RunOk(r, fs, false) && (PairOk(fs, r.target) || r.pc.TruncateHash?) && OnItsWay(r, fs)
    ensures OnItsWay(Step(r, fs).0, Step(r, fs).1)
  {
    hide FilesOk, RunOk, PairOk, OnItsWay, Step;
    match r.pc {
      case ReadHash => DecisionOnItsWay(r, fs);
      case FindObject => DecisionOnItsWay(r, fs);
      case Compile => DecisionOnItsWay(r, fs);
      case TruncateHash => HashFileOnItsWay(r, fs);
      case WriteHash(_) => HashFileOnItsWay(r, fs);
      case Done => HashFileOnItsWay(r, fs);
      case _ => ExchangeOnItsWay(r, fs);
    }
  }

  lemma {:induction false} CompletedOnItsWay(r: Run, fs: FileSystem)
    requires FilesOk(fs) && RunOk(r, fs, false) && (PairOk(fs, r.target) || r.pc.TruncateHash?) && OnItsWay(r, fs)
    ensures Delivered(Completed(r, fs).1, r.mode, r.target, r.hash)
    ensures FilesOk(Completed(r, fs).1) && PairOk(Completed(r, fs).1, r.target)
    ensures forall o :: o != r.target && PairOk(fs, o) ==> PairOk(Completed(r, fs).1, o)
    decreases StepsLeft(r.pc)
  {
    hide RunOk, PairOk, FilesOk, OnItsWay, Step, Delivered;
    if r.pc.Done? {
      assert Delivered(fs, r.mode, r.target, r.hash) by {
        StepsEnd(r, fs);
      }
    } else {
      StepsGoOn(r, fs);
      StepKeepsFiles(r, fs, false);
      StepKeepsRun(r, fs, false);
      StepKeepsPair(r, fs, false);
      StepOnItsWay(r, fs);
      forall o | o != r.target && PairOk(fs, o) {
        StepKeepsOtherPairs(r, fs, false, o);
      }
      CompletedOnItsWay(Step(r, fs).0, Step(r, fs).1);
    }
  }

  lemma StepsEnd(r: Run, fs: FileSystem)
    requires r.pc.Done? && OnItsWay(r, fs)
    ensures Delivered(fs, r.mode, r.target, r.hash)
  {
  }

  lemma StepsGoOn(r: Run, fs: FileSystem)
    requires !r.pc.Done?
    ensures StepsLeft(Step(r, fs).0.pc) < StepsLeft(r.pc)
    ensures var r' := Step(r, fs).0; r'.mode == r.mode && r'.target == r.target && r'.hash == r.hash
  {
  }

  /** Whatever files exist, as long as they are in order, an undisturbed run leaves the object its hash requires. */
  lemma CompletedRunDelivers(mode: Mode, target: string, hash: Hash, fs: FileSystem)
    requires FilesOk(fs) && PairOk(fs, target) && |hash| == HASH_LENGTH
    ensures var fs' := Completed(StartOf(mode, target, hash), fs).1;
            && Delivered(fs', mode, target, hash) && FilesOk(fs') && PairOk(fs', target)
            && forall o :: PairOk(fs, o) ==> PairOk(fs', o)
  {
    CompletedOnItsWay(StartOf(mode, target, hash), fs);
  }

  /** A repeated run finds its object in the cache and does not compile. */
  lemma RepeatedRunHits(mode: Mode, target: string, hash: Hash, fs: FileSystem)
    requires Delivered(fs, mode, target, hash)
    ensures Completed(StartOf(mode, target, hash), fs).0.fromCache
  {
    var s := StartOf(mode, target, hash);
    var (r1, fs1) := if mode.PerObject? then Step(s, fs) else (s, fs);
    var (r2, fs2) := Step(r1, fs1);
    assert r2.fromCache && r2.pc.StatDst?;
    HitStaysHit(r2, fs2);
  }

  lemma {:induction false} HitStaysHit(r: Run, fs: FileSystem)
    requires r.fromCache && !r.pc.ReadHash? && !r.pc.FindObject? && !r.pc.Compile?
    ensures Completed(r, fs).0.fromCache
    decreases StepsLeft(r.pc)
  {
    if !r.pc.Done? {
      HitStaysHit(Step(r, fs).0, Step(r, fs).1);
    }
  }

  /** Completed runs with arbitrary hashes, mixed with deletions of any files. */
  datatype Event = RunFor(mode: Mode, target: string, hash: Hash) | Delete(path: Path)

  function After(fs: FileSystem, events: seq<Event>): FileSystem {
    if events == [] then fs
    else
      var before := After(fs, events[..|events| - 1]);
      match events[|events| - 1]
      case RunFor(mode, target, hash) => Completed(StartOf(mode, target, hash), before).1
      case Delete(path) => before.Unlink(path)
  }

  ghost predicate RealHashes(events: seq<Event>) {
    forall e :: e in events && e.RunFor? ==> |e.hash| == HASH_LENGTH
  }

  /** Every completed run leaves the object that its own hash requires, whatever happened before. */
  lemma {:induction false} EveryCompletedRunDelivers(fs: FileSystem, events: seq<Event>)
    requires FilesOk(fs) && (forall o :: PairOk(fs, o)) && RealHashes(events)
    ensures FilesOk(After(fs, events)) && forall o :: PairOk(After(fs, events), o)
    ensures events != [] && events[|events| - 1].RunFor? ==>
              var e := events[|events| - 1]; Delivered(After(fs, events), e.mode, e.target, e.hash)
    decreases |events|
  {
    hide PairOk, FilesOk, Delivered, Completed, StartOf;
    if events != [] {
      var before := After(fs, events[..|events| - 1]);
      EveryCompletedRunDelivers(fs, events[..|events| - 1]);
      assert events[|events| - 1] in events;
      match events[|events| - 1] {
        case RunFor(mode, target, hash) =>
          CompletedRunDelivers(mode, target, hash, before);
        case Delete(path) =>
          DeletionKeepsFiles(before, path);
          forall o {
            DeletionKeepsPair(before, path, o);
          }
      }
    }
  }

  /** The hash file holds a hash other than this one. */
  ghost predicate HoldsOtherHash(fs: FileSystem, target: string, hash: Hash) {
    && fs.Exists(HashPath(target)) && fs.Read(HashPath(target)).HashText?
    && |fs.Read(HashPath(target)).text| == HASH_LENGTH && fs.Read(HashPath(target)).text != hash
  }

  /** Killing an otherwise undisturbed run after any number of steps leaves the pair of files in order, except
      exactly between linking the new copy and truncating a hash file that holds another hash. */
  lemma {:induction false} KilledRunLeavesPairInOrder(r: Run, fs: FileSystem, n: nat)
    requires FilesOk(fs) && RunOk(r, fs, false) && OnItsWay(r, fs) && (r.pc.TruncateHash? || PairOk(fs, r.target))
    ensures var (r', fs') := Stepped(r, fs, n);
            PairOk(fs', r.target) <==> !(r'.pc.TruncateHash? && HoldsOtherHash(fs', r.target, r.hash))
    decreases n
  {
    if n == 0 {
      AtTheWindow(r, fs);
    } else if r.pc.Done? {
      assert Step(r, fs) == (r, fs);
      KilledRunLeavesPairInOrder(r, fs, n - 1);
    } else {
      StepsGoOn(r, fs);
      StepKeepsFiles(r, fs, false);
      StepKeepsRun(r, fs, false);
      StepKeepsPair(r, fs, false);
      StepOnItsWay(r, fs);
      KilledRunLeavesPairInOrder(Step(r, fs).0, Step(r, fs).1, n - 1);
    }
  }

  lemma AtTheWindow(r: Run, fs: FileSystem)
    requires RunOk(r, fs, false) && OnItsWay(r, fs) && (r.pc.TruncateHash? || PairOk(fs, r.target))
    ensures PairOk(fs, r.target) <==> !(r.pc.TruncateHash? && HoldsOtherHash(fs, r.target, r.hash))
  {
  }

  /** What the exception costs: after a delivered run for `h1`, a run for `h2` is killed in the window; the next run
      for `h1` finds its hash and a copy, does not compile, and delivers the object for `h2`. */
  lemma TornPairDeliversWrongObject(target: string, h1: Hash, h2: Hash, fs: FileSystem)
    requires Delivered(fs, PerObject, target, h1) && h1 != h2
    ensures var (killed, torn) := Stepped(StartOf(PerObject, target, h2), fs, 6);
            var (next, after) := Completed(StartOf(PerObject, target, h1), torn);
            && killed.pc.TruncateHash? && next.fromCache
            && Holds(after, ObjectPath(target), Object(h2))
  {
    var (r1, fs1) := Step(StartOf(PerObject, target, h2), fs);
    var (r2, fs2) := Step(r1, fs1);
    var (r3, fs3) := Step(r2, fs2);
    var (r4, fs4) := Step(r3, fs3);
    var (r5, fs5) := Step(r4, fs4);
    var (r6, fs6) := Step(r5, fs5);
    assert r6.pc.TruncateHash? && Holds(fs6, CopyPath(target), Object(h2))
           && Holds(fs6, HashPath(target), HashText(h1));
    assert Stepped(StartOf(PerObject, target, h2), fs, 6) == (r6, fs6);
    HitDeliversCopy(StartOf(PerObject, target, h1), fs6, Object(h2));
  }

  lemma HitDeliversCopy(r: Run, fs: FileSystem, c: Content)
    requires r.pc.ReadHash? && r.mode.PerObject? && !r.fromCache
    requires Holds(fs, HashPath(r.target), HashText(r.hash)) && Holds(fs, CopyPath(r.target), c)
    ensures Completed(r, fs).0.fromCache && Holds(Completed(r, fs).1, ObjectPath(r.target), c)
  {
    var (r1, fs1) := Step(r, fs);
    assert Completed(r, fs) == Completed(r1, fs1);
    var (r2, fs2) := Step(r1, fs1);
    assert Completed(r1, fs1) == Completed(r2, fs2);
    HitLinks(r2, fs2, c);
  }

  lemma HitLinks(r: Run, fs: FileSystem, c: Content)
    requires r.pc.StatDst? && r.mode.PerObject? && r.fromCache && Holds(fs, CopyPath(r.target), c)
    ensures Completed(r, fs).0.fromCache && Holds(Completed(r, fs).1, ObjectPath(r.target), c)
  {
    var (r3, fs3) := Step(r, fs);
    assert Completed(r, fs) == Completed(r3, fs3);
    var (r4, fs4) := if r3.pc.UnlinkDst? then Step(r3, fs3) else (r3, fs3);
    assert Completed(r3, fs3) == Completed(r4, fs4);
    assert r4.pc.StatSrc? && !fs4.Exists(ObjectPath(r.target)) && Holds(fs4, CopyPath(r.target), c);
    var (r5, fs5) := Step(r4, fs4);
    assert Completed(r4, fs4) == Completed(r5, fs5);
    var (r6, fs6) := Step(r5, fs5);
    assert Completed(r5, fs5) == Completed(r6, fs6) == (r6, fs6);
  }

  /** So the order of the pair is exactly what the next undisturbed run needs, whatever its hash. */
  lemma PairInOrderIffEveryRunDelivers(target: string, fs: FileSystem)
    requires FilesOk(fs)
    ensures PairOk(fs, target) <==>
            forall hash :: |hash| == HASH_LENGTH ==>
              Delivered(Completed(StartOf(PerObject, target, hash), fs).1, PerObject, target, hash)
  {
    if PairOk(fs, target) {
      forall hash | |hash| == HASH_LENGTH
        ensures Delivered(Completed(StartOf(PerObject, target, hash), fs).1, PerObject, target, hash)
      {
        CompletedRunDelivers(PerObject, target, hash, fs);
      }
    } else {
      var hash := fs.Read(HashPath(target)).text;
      HitDeliversCopy(StartOf(PerObject, target, hash), fs, fs.Read(CopyPath(target)));
      assert !Delivered(Completed(StartOf(PerObject, target, hash), fs).1, PerObject, target, hash);
    }
  }
}
