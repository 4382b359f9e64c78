/** The plugin's own code for one undisturbed run: the lookup, the decision and the exit handler. It refines the
    step-by-step runs of ObjectCache. */
module ObjectCacheCode {
  import opened Options
  import opened ObjectCache

  datatype AtexitMode = Nop | FromCache | ToCache

  /** The file-scope variables of the plugin, and the file system they are used on. */
  class Plugin {
    var fs: FileSystem
    var atexitMode: AtexitMode
    var objectfile: Path
    var objectfileCopy: Option<Path>
    var hashfile: Option<Path>
    var hashNew: Hash

    constructor (fs: FileSystem, target: string, hash: Hash)
      ensures this.fs == fs && atexitMode == Nop && objectfile == ObjectPath(target) && objectfileCopy == None
      ensures hashfile == None && hashNew == hash
    {
      this.fs, atexitMode, objectfile := fs, Nop, ObjectPath(target);
      objectfileCopy, hashfile, hashNew := None, None, hash;
    }

    /** Looks the hash up: in the shared directory by name, otherwise in the pair of files beside the object. */
    method FindObjectFromHash(mode: Mode, target: string, hash: Hash) returns (copy: Option<Path>)
      ensures copy == if Completed(StartOf(mode, target, hash), fs).0.fromCache
                      then Some(StartOf(mode, target, hash).Cached()) else None
    {
      LookupDecides(mode, target, hash, fs);
      if mode.Shared? {
        if fs.Exists(Entry(hash)) {
          return Some(Entry(hash));
        }
        return None;
      }
      if !fs.Exists(HashPath(target)) {
        return None;
      }
      var oldHash := fs.Read(HashPath(target));
      if oldHash == HashText(hash) {
        if fs.Exists(CopyPath(target)) {
          return Some(CopyPath(target));
        }
      }
      copy := None;
    }

    /** The exit handler: replace the destination by a hard link to the source, then record the hash. */
    method LinkObjectFile(ghost r: Run)
      requires objectfile == ObjectPath(r.target) && hashNew == r.hash && r.pc.StatDst?
      requires atexitMode != Nop ==> objectfileCopy == Some(r.Cached()) && r.fromCache == (atexitMode == FromCache)
      requires hashfile == if atexitMode == ToCache && r.mode.PerObject? then Some(HashPath(r.target)) else None
      modifies this`fs
      ensures fs == if atexitMode == Nop then old(fs) else Completed(r, old(fs)).1
    {
      if atexitMode == Nop {
        return;
      }
      var src, dst := if atexitMode == FromCache then objectfileCopy.value else objectfile,
                      if atexitMode == FromCache then objectfile else objectfileCopy.value;
      ExchangeDoes(r, fs);
      if fs.Exists(dst) {
        fs := fs.Unlink(dst);
      }
      if !fs.Exists(src) {
        return;
      }
      fs := fs.Link(src, dst);
      if atexitMode == ToCache {
        if hashfile.Some? {
          HashFileDoes(r.(pc := TruncateHash), fs);
          WriteNewFile(hashfile.value);
        }
      }
    }

    /** fopen with "w+", fwrite, fclose. */
    method WriteNewFile(p: Path)
      modifies this`fs
      ensures fs == Rewritten(old(fs), p, hashNew)
    {
      var file;
      if fs.Exists(p) {
        file := fs.names[p];
        fs := fs.Write(file, HashText(""));
      } else {
        file := |fs.inodes|;
        fs := fs.Create(p, HashText(""));
      }
      fs := fs.Write(file, HashText(hashNew));
    }

    /** A whole run: on a hit the compiler exits at once, on a miss it writes its object first. Without caching it
        just compiles. After errors the cache is not asked and no object is written, but the exit handler runs. */
    method HandleTranslationUnit(mode: Mode, target: string, errors: bool, caching: bool)
      requires objectfile == ObjectPath(target) && atexitMode == Nop && hashfile == None && objectfileCopy == None
      modifies this
      ensures !errors && caching ==> fs == Completed(StartOf(mode, target, old(hashNew)), old(fs)).1
      ensures !errors && caching && FilesOk(old(fs)) && PairOk(old(fs), target) && |old(hashNew)| == HASH_LENGTH ==>
                Delivered(fs, mode, target, old(hashNew))
      ensures !errors && !caching ==> fs == old(fs).Create(ObjectPath(target), Object(old(hashNew)))
      ensures errors && caching ==> fs == AfterErrors(mode, target, old(hashNew), old(fs))
      ensures errors && !caching ==> fs == old(fs)
    {
      if FilesOk(fs) && PairOk(fs, target) && |hashNew| == HASH_LENGTH {
        CompletedRunDelivers(mode, target, hashNew, fs);
      }
      LookupDecides(mode, target, hashNew, fs);
      ghost var start := StartOf(mode, target, hashNew);
      var copy := None;
      if !errors {
        copy := FindObjectFromHash(mode, target, hashNew);
        if copy.Some? {
          objectfileCopy := copy;
        }
      }
      if caching {
        if copy.Some? {
          atexitMode := FromCache;
          LinkObjectFile(start.(fromCache := true, pc := StatDst));
          return;
        }
        hashfile := if mode.PerObject? then Some(HashPath(target)) else None;
        objectfileCopy := Some(if mode.PerObject? then CopyPath(target) else Entry(hashNew));
        atexitMode := ToCache;
      }
      if !errors {
        fs := fs.Create(objectfile, Object(hashNew));
      }
      LinkObjectFile(start.(fromCache := false, pc := StatDst));
    }
  }

  /** The exit handler after a compile that wrote no object. */
  function AfterErrors(mode: Mode, target: string, hash: Hash, fs: FileSystem): FileSystem {
    Completed(StartOf(mode, target, hash).(fromCache := false, pc := StatDst), fs).1
  }

  /** A compile with errors leaves the cache in order exactly when the object file left from an earlier run, if there is
      one, happens to be the object for the new hash; otherwise that stale object is filed under the new hash. */
  lemma ErrorsKeepOrderIffNoStaleObject(mode: Mode, target: string, hash: Hash, fs: FileSystem)
    requires FilesOk(fs) && PairOk(fs, target) && |hash| == HASH_LENGTH
    ensures EntriesOk(AfterErrors(mode, target, hash, fs)) && PairOk(AfterErrors(mode, target, hash, fs), target)
       <==> fs.AtMost(ObjectPath(target), Object(hash))
  {
    hide Completed, EntriesOk, PairOk;
    if mode.PerObject? {
      PairAfterErrors(target, hash, fs);
    } else {
      EntriesAfterErrors(target, hash, fs);
    }
  }

  /** What the exit handler does then. */
  lemma AfterErrorsFiles(mode: Mode, target: string, hash: Hash, fs: FileSystem)
    ensures var cached := StartOf(mode, target, hash).Cached();
            var gone := if fs.Exists(cached) then fs.Unlink(cached) else fs;
            AfterErrors(mode, target, hash, fs) ==
              if !fs.Exists(ObjectPath(target)) then gone
              else if mode.Shared? then gone.Link(ObjectPath(target), cached)
              else Rewritten(gone.Link(ObjectPath(target), cached), HashPath(target), hash)
  {
    hide Rewritten;
    var r := StartOf(mode, target, hash).(fromCache := false, pc := StatDst);
    ExchangeDoes(r, fs);
    var gone := if fs.Exists(r.Dst()) then fs.Unlink(r.Dst()) else fs;
    if fs.Exists(r.Src()) && mode.PerObject? {
      HashFileDoes(r.(pc := TruncateHash), gone.Link(r.Src(), r.Dst()));
    }
  }

  lemma PairAfterErrors(target: string, hash: Hash, fs: FileSystem)
    requires FilesOk(fs) && PairOk(fs, target) && |hash| == HASH_LENGTH
    ensures var after := AfterErrors(PerObject, target, hash, fs);
            EntriesOk(after) && (PairOk(after, target) <==> fs.AtMost(ObjectPath(target), Object(hash)))
  {
    hide Completed;
    AfterErrorsFiles(PerObject, target, hash, fs);
    var after := AfterErrors(PerObject, target, hash, fs);
    forall h
      ensures after.AtMost(Entry(h), Object(h))
    {
      assert fs.AtMost(Entry(h), Object(h));
    }
  }

  lemma EntriesAfterErrors(target: string, hash: Hash, fs: FileSystem)
    requires FilesOk(fs) && PairOk(fs, target)
    ensures var after := AfterErrors(Shared, target, hash, fs);
            PairOk(after, target) && (EntriesOk(after) <==> fs.AtMost(ObjectPath(target), Object(hash)))
  {
    hide Completed;
    AfterErrorsFiles(Shared, target, hash, fs);
    var after := AfterErrors(Shared, target, hash, fs);
    forall h
      ensures h != hash ==> after.AtMost(Entry(h), Object(h))
    {
      assert fs.AtMost(Entry(h), Object(h));
    }
    assert after.AtMost(Entry(hash), Object(hash)) <==> fs.AtMost(ObjectPath(target), Object(hash));
  }

  /** A file rewritten in place, or created. */
  function Rewritten(fs: FileSystem, p: Path, text: string): FileSystem {
    if fs.Exists(p) then fs.Write(fs.names[p], HashText("")).Write(fs.names[p], HashText(text))
    else fs.Create(p, HashText("")).Write(|fs.inodes|, HashText(text))
  }

  /** The lookup steps of a run, taken together. */
  lemma LookupDecides(mode: Mode, target: string, hash: Hash, fs: FileSystem)
    ensures var start := StartOf(mode, target, hash);
            var known := mode.PerObject? ==> fs.Exists(HashPath(target)) && fs.Read(HashPath(target)) == HashText(hash);
            var hit := known && fs.Exists(start.Cached());
            && Completed(start, fs).0.fromCache == hit
            && Completed(start, fs) ==
               (if hit then Completed(start.(fromCache := true, pc := StatDst), fs)
                else Completed(start.(fromCache := false, pc := StatDst), fs.Create(ObjectPath(target), Object(hash))))
  {
    var start := StartOf(mode, target, hash);
    var (r1, fs1) := if mode.PerObject? then Step(start, fs) else (start, fs);
    assert Completed(start, fs) == Completed(r1, fs1);
    var (r2, fs2) := if r1.pc.FindObject? then Step(r1, fs1) else (r1, fs1);
    assert Completed(r1, fs1) == Completed(r2, fs2);
    var (r3, fs3) := if r2.pc.Compile? then Step(r2, fs2) else (r2, fs2);
    assert Completed(r2, fs2) == Completed(r3, fs3);
    assert r3.pc.StatDst?;
    FromCacheStays(r3, fs3);
  }

  lemma {:induction false} FromCacheStays(r: Run, fs: FileSystem)
    requires !r.pc.ReadHash? && !r.pc.FindObject? && !r.pc.Compile?
    ensures Completed(r, fs).0.fromCache == r.fromCache
    decreases StepsLeft(r.pc)
  {
    if !r.pc.Done? {
      FromCacheStays(Step(r, fs).0, Step(r, fs).1);
    }
  }

  /** The exchange steps of an undisturbed run, taken together. */
  lemma ExchangeDoes(r: Run, fs: FileSystem)
    requires r.pc.StatDst?
    ensures var fs1 := if fs.Exists(r.Dst()) then fs.Unlink(r.Dst()) else fs;
            Completed(r, fs).1 ==
              if !fs1.Exists(r.Src()) then fs1
              else if r.fromCache || r.mode.Shared? then fs1.Link(r.Src(), r.Dst())
              else Completed(r.(pc := TruncateHash), fs1.Link(r.Src(), r.Dst())).1
  {
    var (r1, fs1) := Step(r, fs);
    assert Completed(r, fs) == Completed(r1, fs1);
    var (r2, fs2) := if r1.pc.UnlinkDst? then Step(r1, fs1) else (r1, fs1);
    assert Completed(r1, fs1) == Completed(r2, fs2);
    assert r2.pc.StatSrc?;
    var (r3, fs3) := Step(r2, fs2);
    assert Completed(r2, fs2) == Completed(r3, fs3);
    if r3.pc.LinkDst? {
      var (r4, fs4) := Step(r3, fs3);
      assert Completed(r3, fs3) == Completed(r4, fs4);
    }
  }

  /** The last two steps: the hash file is rewritten. */
  lemma HashFileDoes(r: Run, fs: FileSystem)
    requires r.pc.TruncateHash?
    ensures Completed(r, fs).1 == Rewritten(fs, HashPath(r.target), r.hash)
  {
    var (r1, fs1) := Step(r, fs);
    assert Completed(r, fs) == Completed(r1, fs1);
    var (r2, fs2) := Step(r1, fs1);
    assert Completed(r1, fs1) == Completed(r2, fs2) == (r2, fs2);
  }
}
