/** The consistency checker for build logs (wrappers/compare-logs): two passes that together decide whether equal AST
    hashes always came with equal object hashes. */
module CompareLogs {
  import opened LogLines

  /** The records of one log by file name. */
  type Log = map<string, Record>

  type Groups = map<string, seq<Record>>

  ghost predicate WellKeyed(log: Log) {
    forall fn :: fn in log ==> log[fn].fn == fn
  }

  /** The line has a record for this file. */
  predicate RecordFor(line: string, fn: string) {
    var d := FieldsOf(line);
    "fn" in d && "ast" in d && "obj" in d && d["fn"] == fn
  }

  /** The line is the last one with a record for this file. */
  ghost predicate LastFor(lines: seq<string>, i: int, fn: string) {
    0 <= i < |lines| && RecordFor(lines[i], fn) && forall j :: i < j < |lines| ==> !RecordFor(lines[j], fn)
  }

  function LogOf(lines: seq<string>): Log {
    if lines == [] then map[]
    else
      var before, d := LogOf(lines[..|lines| - 1]), FieldsOf(lines[|lines| - 1]);
      if Complete(d) then before[d["fn"] := RecordOf(d)] else before
  }

  /** The last complete line of each file counts; other lines are ignored. */
  lemma {:induction false} LogHoldsLastRecords(lines: seq<string>, fn: string)
    ensures WellKeyed(LogOf(lines))
    ensures fn in LogOf(lines) <==> exists i :: LastFor(lines, i, fn)
    ensures forall i :: LastFor(lines, i, fn) ==> LogOf(lines)[fn] == RecordOf(FieldsOf(lines[i]))
  {
    hide FieldsOf;
    if lines != [] {
      var n := |lines| - 1;
      LogHoldsLastRecords(lines[..n], fn);
      if RecordFor(lines[n], fn) {
        assert LastFor(lines, n, fn);
      } else {
        assert forall i :: LastFor(lines, i, fn) <==> LastFor(lines[..n], i, fn);
      }
    }
  }

  method ReadLog(lines: seq<string>) returns (log: Log)
    ensures WellKeyed(log)
    ensures forall fn :: fn in log <==> exists i :: LastFor(lines, i, fn)
    ensures forall fn, i :: LastFor(lines, i, fn) ==> fn in log && log[fn] == RecordOf(FieldsOf(lines[i]))
  {
    hide FieldsOf, LastFor, WellKeyed;
    log := map[];
    for i := 0 to |lines|
      invariant log == LogOf(lines[..i])
    {
      assert lines[..i + 1][..i] == lines[..i];
      var d := ParseLine(lines[i]);
      if Complete(d) {
        log := log[d["fn"] := RecordOf(d)];
      }
    }
    assert lines[..|lines|] == lines;
    LogHoldsLastRecords(lines, "");
    forall fn {
      LogHoldsLastRecords(lines, fn);
    }
  }

  method ParseLine(line: string) returns (d: Fields)
    ensures d == FieldsOf(line)
  {
    d := map[];
    if !(PREFIX <= line) {
      return;
    }
    var words := Words(line[|PREFIX|..]);
    for i := 0 to |words|
      invariant d == FieldsIn(words[..i])
    {
      assert words[..i + 1][..i] == words[..i];
      var c := Colon(words[i]);
      if c == |words[i]| {
        continue;
      }
      d := d[words[i][..c] := words[i][c + 1..]];
    }
    assert words[..|words|] == words;
  }

  /** All records of both logs. */
  ghost function Records(a: Log, b: Log): set<Record> {
    a.Values + b.Values
  }

  /** Files in both logs whose object changed under the same AST hash. */
  ghost function SameFileProblems(a: Log, b: Log): set<string> {
    set fn | fn in a && fn in b && a[fn].obj != b[fn].obj && a[fn].ast == b[fn].ast
  }

  /** A group holds two records that differ in what `f` yields. */
  ghost predicate Differ(group: set<Record>, f: Record -> string) {
    exists r, s :: r in group && s in group && f(r) != f(s)
  }

  ghost function GroupOf(records: set<Record>, key: Record -> string, k: string): set<Record> {
    set r | r in records && key(r) == k
  }

  /** AST hashes under which different objects were built from different files. */
  ghost function GroupProblems(records: set<Record>): set<string> {
    set r | r in records && Differ(GroupOf(records, ByAst, r.ast), ByObj)
      && Differ(GroupOf(records, ByAst, r.ast), ByFn) :: r.ast
  }

  /** Object hashes that came with different AST hashes. */
  ghost function Overapproximations(records: set<Record>): set<string> {
    set r | r in records && Differ(GroupOf(records, ByObj, r.obj), ByAst) :: r.obj
  }

  function ByAst(r: Record): string { r.ast }
  function ByObj(r: Record): string { r.obj }
  function ByFn(r: Record): string { r.fn }

  /** Equal AST hashes mean equal object hashes. */
  ghost predicate AstDeterminesObject(records: set<Record>) {
    forall r, s :: r in records && s in records && r.ast == s.ast ==> r.obj == s.obj
  }

  ghost predicate ObjectDeterminesAst(records: set<Record>) {
    forall r, s :: r in records && s in records && r.obj == s.obj ==> r.ast == s.ast
  }

  /** The groups hold exactly these records, each under its key, and no group is empty. */
  ghost predicate Grouped(groups: Groups, records: set<Record>, key: Record -> string) {
    && (forall k :: k in groups ==> groups[k] != [] && forall r :: r in groups[k] ==> r in records && key(r) == k)
    && (forall r :: r in records ==> key(r) in groups && r in groups[key(r)])
  }

  /** Appends the records of a log to the groups, in the order the dictionary gives them. */
  method AddToGroups(groups: Groups, log: Log, key: Record -> string, ghost before: set<Record>) returns (grown: Groups)
    requires Grouped(groups, before, key)
    ensures Grouped(grown, before + log.Values, key)
  {
    grown := groups;
    var todo := log.Keys;
    ghost var done: set<Record> := {};
    while todo != {}
      invariant todo <= log.Keys
      invariant done == set fn | fn in log && fn !in todo :: log[fn]
      invariant Grouped(grown, before + done, key)
      decreases todo
    {
      var fn :| fn in todo;
      var data := log[fn];
      var k := key(data);
      var group := if k in grown then grown[k] else [];
      grown := grown[k := group + [data]];
      done := done + {data};
      todo := todo - {fn};
    }
    assert done == log.Values;
  }

  /** "Any record differs from the first", which is how the passes look at a group. */
  predicate AnyDiffersFromFirst(group: seq<Record>, f: Record -> string)
    requires group != []
  {
    exists i :: 0 <= i < |group| && f(group[i]) != f(group[0])
  }

  /** Whichever record comes first, that is the same as two records differing. */
  lemma FirstDoesNotMatter(group: seq<Record>, f: Record -> string)
    requires group != []
    ensures AnyDiffersFromFirst(group, f) <==> Differ((set r | r in group), f)
  {
    if AnyDiffersFromFirst(group, f) {
      var i :| 0 <= i < |group| && f(group[i]) != f(group[0]);
      assert group[i] in group && group[0] in group;
    }
    if Differ((set r | r in group), f) {
      var r, s :| r in group && s in group && f(r) != f(s);
      var i :| 0 <= i < |group| && group[i] == r;
      var j :| 0 <= j < |group| && group[j] == s;
      assert f(group[i]) != f(group[0]) || f(group[j]) != f(group[0]);
    }
  }

  lemma SameFileProblem(a: Log, b: Log, fn: string)
    ensures fn in SameFileProblems(a, b) <==>
            fn in a.Keys * b.Keys && a[fn].obj != b[fn].obj && a[fn].ast == b[fn].ast
  {
  }

  /** How many files in both logs are in order, and how many are not. */
  method FollowSameFiles(a: Log, b: Log) returns (ok: nat, fail: nat)
    ensures fail == |SameFileProblems(a, b)| && ok + fail == |a.Keys * b.Keys|
  {
    SameFileProblemsAreCommon(a, b);
    hide SameFileProblems;
    ok, fail := 0, 0;
    var common := a.Keys * b.Keys;
    var todo := common;
    ghost var bad: set<string> := {};
    while todo != {}
      invariant todo <= common
      invariant bad == SameFileProblems(a, b) - todo
      invariant fail == |bad| && ok + fail + |todo| == |common|
      decreases todo
    {
      var fn :| fn in todo;
      SameFileProblem(a, b, fn);
      if a[fn].obj != b[fn].obj && a[fn].ast == b[fn].ast {
        fail := fail + 1;
        bad := bad + {fn};
      } else {
        ok := ok + 1;
      }
      todo := todo - {fn};
    }
    assert bad == SameFileProblems(a, b);
  }

  lemma SameFileProblemsAreCommon(a: Log, b: Log)
    ensures SameFileProblems(a, b) <= a.Keys * b.Keys
  {
  }

  /** Counts the groups that a pass complains about. */
  method CountGroupProblems(groups: Groups, ghost records: set<Record>) returns (fail: nat)
    requires Grouped(groups, records, ByAst)
    ensures fail == |GroupProblems(records)|
  {
    hide GroupProblems, Grouped;
    fail := 0;
    var todo := groups.Keys;
    ghost var bad: set<string> := {};
    GroupProblemKeys(groups, records);
    while todo != {}
      invariant todo <= groups.Keys
      invariant bad == GroupProblems(records) - todo
      invariant fail == |bad|
      decreases todo
    {
      var k :| k in todo;
      GroupProblem(groups, records, k);
      if AnyDiffersFromFirst(groups[k], ByObj) {
        if AnyDiffersFromFirst(groups[k], ByFn) {
          fail := fail + 1;
          bad := bad + {k};
        }
      }
      todo := todo - {k};
    }
    assert bad == GroupProblems(records);
  }

  lemma GroupProblem(groups: Groups, records: set<Record>, k: string)
    requires Grouped(groups, records, ByAst) && k in groups
    ensures groups[k] != []
    ensures k in GroupProblems(records) <==>
            AnyDiffersFromFirst(groups[k], ByObj) && AnyDiffersFromFirst(groups[k], ByFn)
  {
    GroupMembers(groups, records, ByAst, k);
    FirstDoesNotMatter(groups[k], ByObj);
    FirstDoesNotMatter(groups[k], ByFn);
  }

  lemma GroupProblemKeys(groups: Groups, records: set<Record>)
    requires Grouped(groups, records, ByAst)
    ensures GroupProblems(records) <= groups.Keys
  {
  }

  method CountOverapproximations(groups: Groups, ghost records: set<Record>) returns (count: nat)
    requires Grouped(groups, records, ByObj)
    ensures count == |Overapproximations(records)|
  {
    hide Overapproximations, Grouped;
    count := 0;
    var todo := groups.Keys;
    ghost var bad: set<string> := {};
    OverapproximationKeys(groups, records);
    while todo != {}
      invariant todo <= groups.Keys
      invariant bad == Overapproximations(records) - todo
      invariant count == |bad|
      decreases todo
    {
      var k :| k in todo;
      Overapproximation(groups, records, k);
      if AnyDiffersFromFirst(groups[k], ByAst) {
        count := count + 1;
        bad := bad + {k};
      }
      todo := todo - {k};
    }
    assert bad == Overapproximations(records);
  }

  lemma Overapproximation(groups: Groups, records: set<Record>, k: string)
    requires Grouped(groups, records, ByObj) && k in groups
    ensures groups[k] != []
    ensures k in Overapproximations(records) <==> AnyDiffersFromFirst(groups[k], ByAst)
  {
    GroupMembers(groups, records, ByObj, k);
    FirstDoesNotMatter(groups[k], ByAst);
  }

  lemma OverapproximationKeys(groups: Groups, records: set<Record>)
    requires Grouped(groups, records, ByObj)
    ensures Overapproximations(records) <= groups.Keys
  {
  }

  lemma GroupMembers(groups: Groups, records: set<Record>, key: Record -> string, k: string)
    requires Grouped(groups, records, key) && k in groups
    ensures (set r | r in groups[k]) == GroupOf(records, key, k)
    ensures exists r :: r in records && key(r) == k
  {
    assert groups[k][0] in groups[k];
  }

  /** The whole comparison of two logs: files in order, problems, and hashes that could be too conservative. */
  method CompareTwo(a: Log, b: Log) returns (ok: nat, fail: nat, overapprox: nat)
    requires WellKeyed(a) && WellKeyed(b)
    ensures ok + |SameFileProblems(a, b)| == |a.Keys * b.Keys|
    ensures fail == |SameFileProblems(a, b)| + |GroupProblems(Records(a, b))|
    ensures fail == 0 <==> AstDeterminesObject(Records(a, b))
    ensures overapprox == 0 <==> ObjectDeterminesAst(Records(a, b))
  {
    NoProblemsIffConsistent(a, b);
    NoOverapproximation(Records(a, b));
    hide Grouped, Records, SameFileProblems, GroupProblems, Overapproximations, AstDeterminesObject,
         ObjectDeterminesAst, WellKeyed;
    ok, fail := FollowSameFiles(a, b);
    var byAst := GroupBoth(a, b, ByAst);
    var more := CountGroupProblems(byAst, Records(a, b));
    NoneTogether(SameFileProblems(a, b), GroupProblems(Records(a, b)));
    fail := fail + more;
    var byObj := GroupBoth(a, b, ByObj);
    overapprox := CountOverapproximations(byObj, Records(a, b));
  }

  lemma NoneTogether(x: set<string>, y: set<string>)
    ensures |x| + |y| == 0 <==> x == {} && y == {}
  {
  }

  method GroupBoth(a: Log, b: Log, key: Record -> string) returns (groups: Groups)
    ensures Grouped(groups, Records(a, b), key)
  {
    groups := AddToGroups(map[], a, key, {});
    groups := AddToGroups(groups, b, key, {} + a.Values);
    assert {} + a.Values + b.Values == Records(a, b);
  }

  ghost predicate DifferentObjects(records: set<Record>, ast: string) {
    exists r, s :: r in records && s in records && r.ast == ast && s.ast == ast && r.obj != s.obj
  }

  ghost predicate DifferentFiles(records: set<Record>, ast: string) {
    exists r, s :: r in records && s in records && r.ast == ast && s.ast == ast && r.fn != s.fn
  }

  ghost predicate DifferentAsts(records: set<Record>, obj: string) {
    exists r, s :: r in records && s in records && r.obj == obj && s.obj == obj && r.ast != s.ast
  }

  /** The grouped pass complains about an AST hash exactly when it came with different objects and with different
      files; the last pass about an object hash exactly when it came with different AST hashes. */
  lemma WhatThePassesReport(records: set<Record>, k: string)
    ensures k in GroupProblems(records) <==> DifferentObjects(records, k) && DifferentFiles(records, k)
    ensures k in Overapproximations(records) <==> DifferentAsts(records, k)
  {
    DifferInGroup(records, ByAst, k, ByObj);
    DifferInGroup(records, ByAst, k, ByFn);
    DifferInGroup(records, ByObj, k, ByAst);
  }

  lemma DifferInGroup(records: set<Record>, key: Record -> string, k: string, f: Record -> string)
    ensures Differ(GroupOf(records, key, k), f) <==>
            exists r, s :: r in records && s in records && key(r) == k && key(s) == k && f(r) != f(s)
  {
    var group := GroupOf(records, key, k);
    if r, s :| r in records && s in records && key(r) == k && key(s) == k && f(r) != f(s) {
      assert r in group && s in group;
    }
  }

  /** The two passes together decide the global relation: what the grouped pass skips, a group whose records all
      come from one file, the first pass has seen. */
  lemma NoProblemsIffConsistent(a: Log, b: Log)
    requires WellKeyed(a) && WellKeyed(b)
    ensures SameFileProblems(a, b) == {} && GroupProblems(Records(a, b)) == {} <==> AstDeterminesObject(Records(a, b))
  {
    var records := Records(a, b);
    if !AstDeterminesObject(records) {
      var r, s :| r in records && s in records && r.ast == s.ast && r.obj != s.obj;
      var group := GroupOf(records, ByAst, r.ast);
      assert r in group && s in group && ByObj(r) != ByObj(s);
      assert Differ(group, ByObj);
      if r.fn == s.fn {
        OneFilePerLog(a, b, r, s);
        assert r.fn in SameFileProblems(a, b);
      } else {
        assert ByFn(r) != ByFn(s) && Differ(group, ByFn);
        assert r.ast in GroupProblems(records);
      }
    }
    if fn :| fn in SameFileProblems(a, b) {
      assert a[fn] in records && b[fn] in records;
    }
    if k :| k in GroupProblems(records) {
      var group := GroupOf(records, ByAst, k);
      var r, s :| r in group && s in group && ByObj(r) != ByObj(s);
      assert r in records && s in records && r.ast == s.ast;
    }
  }

  /** Two different records of the same file come from different logs. */
  lemma OneFilePerLog(a: Log, b: Log, r: Record, s: Record)
    requires WellKeyed(a) && WellKeyed(b)
    requires r in Records(a, b) && s in Records(a, b) && r != s && r.fn == s.fn
    ensures r.fn in a && r.fn in b && ((a[r.fn] == r && b[r.fn] == s) || (a[r.fn] == s && b[r.fn] == r))
  {
  }

  lemma NoOverapproximation(records: set<Record>)
    ensures Overapproximations(records) == {} <==> ObjectDeterminesAst(records)
  {
    if !ObjectDeterminesAst(records) {
      var r, s :| r in records && s in records && r.obj == s.obj && r.ast != s.ast;
      var group := GroupOf(records, ByObj, r.obj);
      assert r in group && s in group && ByAst(r) != ByAst(s);
      assert r.obj in Overapproximations(records);
    }
    if k :| k in Overapproximations(records) {
      var group := GroupOf(records, ByObj, k);
      var r, s :| r in group && s in group && ByAst(r) != ByAst(s);
      assert r in records && s in records && r.obj == s.obj;
    }
  }
}
