/** What the fake hash stands for: whether the real global hash would change. */
module FakeHashMeaning {
  import opened Options
  import opened Reachability
  import opened CallGraphs
  import opened FakeHash
  import opened GlobalHash
  import opened GlobalHashReach
  import opened GlobalHashCollisions

  /** The symbols with different local hashes in two programs. */
  function Changed(p1: Program, p2: Program): set<Symbol> {
    set s | s in p1.local && p1.LocalHash(s) != p2.LocalHash(s)
  }

  /** For two versions of a program with the same used-definition lists: a fresh fake query answers 1 exactly when the
      global hash of the symbol changes, unless two texts hashed on the way are an MD5 collision. */
  lemma FakeHashTellsGlobalHashChange(p1: Program, p2: Program, md5: string -> string, s: Symbol)
    requires p1.local.Keys == p2.local.Keys == p1.used.Keys && p1.used == p2.used && s in p1.local
    requires FixedLength(p1, p2, md5)
    ensures FreshQuery(p1, s) == FreshQuery(p2, s) && FreshQuery(p1, s).recipe.Some?
    ensures var r := FreshQuery(p1, s).recipe.value;
            || Collision(md5, Texts(p1, md5, r), Texts(p2, md5, r))
            || (FakeQuery(p1.used, Changed(p1, p2), s, {}, map[]).value == Some(1) <==>
                GlobalHashOf(p1, md5, s) != GlobalHashOf(p2, md5, s))
  {
    hide FreshQuery, GlobalHashOf, FakeQuery, Collision, FixedLength;
    var changed := Changed(p1, p2);
    FreshQueryIsExact(p1.used, changed, s);
    GlobalHashDeterminesLocalHashes(p1, p2, md5, s);
    assert Calls(p1.used) == p1.Uses();
    assert ReachesChange(p1.used, changed, s) <==>
           exists t :: t in p1.local && Reaches(p1.Uses(), s, t) && p1.local[t] != p2.local[t];
  }
}
