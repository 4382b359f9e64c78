/** The recursive global hash of a symbol (clang-hash-global): its digest covers its own local hash
    and the global hashes of all definitions it uses, with a memo table and an in-progress set. */
module GlobalHash {
  import opened Options
  import opened Reachability

  const MD5_HEX_LENGTH := 32

  /** The content of the .info files: local hashes and the lists of used definitions. */
  datatype Program = Program(local: map<Symbol, string>, used: map<Symbol, seq<Symbol>>) {
    function UsedBy(s: Symbol): seq<Symbol> {
      if s in used then used[s] else []
    }

    /** Uses of symbols with a local hash; the others count as library functions. */
    function Uses(): Graph {
      map s | s in local :: set c | c in UsedBy(s)
    }

    function LocalHash(s: Symbol): string {
      if s in local then local[s] else ""
    }
  }

  /** What a hash was computed from. Which branches the search takes never depends on a hash value,
      so a query on given used-definition lists has one recipe whatever the local hashes are. */
  datatype Recipe =
    | LocalOf(symbol: Symbol)                          // the local hash of a symbol in progress
    | Combined(symbol: Symbol, parts: seq<Recipe>)     // the MD5 of a local hash and used global hashes

  type Table = map<Symbol, Recipe>

  /** The text given to MD5. */
  function Text(p: Program, md5: string -> string, symbol: Symbol, parts: seq<Recipe>): string
    decreases parts, 1
  {
    p.LocalHash(symbol) + Joined(p, md5, parts)
  }

  function Joined(p: Program, md5: string -> string, parts: seq<Recipe>): string
    decreases parts, 0
  {
    if parts == [] then "" else Value(p, md5, parts[0]) + Joined(p, md5, parts[1..])
  }

  /** The hash a recipe yields. */
  function Value(p: Program, md5: string -> string, r: Recipe): string
    decreases r, 2
  {
    match r
    case LocalOf(s) => p.LocalHash(s)
    case Combined(s, parts) => md5(Text(p, md5, s, parts))
  }

  function ValueIfAny(p: Program, md5: string -> string, r: Option<Recipe>): Option<string> {
    match r
    case None => None
    case Some(recipe) => Some(Value(p, md5, recipe))
  }

  datatype Answer = Answer(recipe: Option<Recipe>, table: Table, visited: set<Symbol>)
  datatype Answers = Answers(parts: seq<Recipe>, table: Table, visited: set<Symbol>)

  function Present(r: Option<Recipe>): seq<Recipe> {
    if r.Some? then [r.value] else []
  }

  /** One query, given the symbols in progress, the memo table and the symbols visited so far. */
  function Query(p: Program, s: Symbol, inProgress: set<Symbol>, table: Table, visited: set<Symbol>): Answer
    decreases |p.local.Keys - inProgress|, 0
  {
    if s !in p.local then Answer(None, table, visited + {s})
    else if s in table then Answer(Some(table[s]), table, visited + {s})
    else if s in inProgress then Answer(Some(LocalOf(s)), table, visited + {s})
    else
      StartingShrinks(p, s, inProgress);
      var below := QueryAll(p, p.UsedBy(s), inProgress + {s}, table, visited + {s});
      var recipe := Combined(s, below.parts);
      Answer(Some(recipe), below.table[s := recipe], below.visited)
  }

  /** The queries for a list of used definitions, in order. */
  function QueryAll(p: Program, todo: seq<Symbol>, inProgress: set<Symbol>, table: Table, visited: set<Symbol>): Answers
    decreases |p.local.Keys - inProgress|, 1 + |todo|
  {
    if todo == [] then Answers([], table, visited)
    else
      var first := Query(p, todo[0], inProgress, table, visited);
      var rest := QueryAll(p, todo[1..], inProgress, first.table, first.visited);
      Answers(Present(first.recipe) + rest.parts, rest.table, rest.visited)
  }

  lemma StartingShrinks(p: Program, s: Symbol, inProgress: set<Symbol>)
    requires s in p.local && s !in inProgress
    ensures |p.local.Keys - (inProgress + {s})| < |p.local.Keys - inProgress|
  {
    assert p.local.Keys - (inProgress + {s}) == (p.local.Keys - inProgress) - {s};
  }

  /** A query of its own: nothing in progress and an empty table. */
  function FreshQuery(p: Program, s: Symbol): Answer {
    Query(p, s, {}, map[], {})
  }

  /** Every memoised hash is the value of its recipe. */
  ghost predicate Realises(p: Program, md5: string -> string, hashes: map<Symbol, string>, table: Table) {
    && hashes.Keys == table.Keys
    && forall s :: s in table ==> hashes[s] == Value(p, md5, table[s])
  }

  /** The memo table, the static in-progress set and the visited set of the tool. */
  class GlobalHasher {
    var currentlyProcessed: set<Symbol>
    var globalHashes: map<Symbol, string>
    var visited: set<Symbol>
    ghost var recipes: Table

    ghost predicate Valid(p: Program, md5: string -> string)
      reads this
    {
      Realises(p, md5, globalHashes, recipes)
    }

    constructor (p: Program, md5: string -> string)
      ensures Valid(p, md5)
      ensures currentlyProcessed == {} && recipes == map[] && visited == {}
    {
      currentlyProcessed, globalHashes, visited, recipes := {}, map[], {}, map[];
    }

    method GetGlobalHash(symbol: Symbol, p: Program, md5: string -> string)
      returns (hash: Option<string>, ghost recipe: Option<Recipe>)
      requires Valid(p, md5)
      modifies this
      ensures Valid(p, md5) && currentlyProcessed == old(currentlyProcessed)
      ensures Answer(recipe, recipes, visited) == Query(p, symbol, old(currentlyProcessed), old(recipes), old(visited))
      ensures hash == ValueIfAny(p, md5, recipe)
      decreases |p.local.Keys - currentlyProcessed|, 0
    {
      visited := visited + {symbol};
      if symbol !in p.local {
        return None, None;
      }
      if symbol in globalHashes {
        return Some(globalHashes[symbol]), Some(recipes[symbol]);
      }
      if symbol in currentlyProcessed {
        return Some(p.local[symbol]), Some(LocalOf(symbol));
      }
      QueryMiss(p, symbol, currentlyProcessed, recipes, old(visited));
      hash, recipe := ComputeGlobalHash(symbol, p, md5);
    }

    /** The part of a query that is not answered from the table: MD5 over the local hash and then, in order, the
        global hashes of the used definitions. */
    method ComputeGlobalHash(symbol: Symbol, p: Program, md5: string -> string)
      returns (hash: Option<string>, ghost recipe: Option<Recipe>)
      requires Valid(p, md5) && symbol in p.local && symbol !in currentlyProcessed
      modifies this
      ensures Valid(p, md5) && currentlyProcessed == old(currentlyProcessed)
      ensures var below := QueryAll(p, p.UsedBy(symbol), currentlyProcessed + {symbol}, old(recipes), old(visited));
              && recipe == Some(Combined(symbol, below.parts))
              && recipes == below.table[symbol := recipe.value]
              && visited == below.visited
      ensures hash == ValueIfAny(p, md5, recipe)
      decreases |p.local.Keys - (currentlyProcessed + {symbol})|, 1
    {
      currentlyProcessed := currentlyProcessed + {symbol};
      ghost var path := currentlyProcessed;
      var text := p.local[symbol];
      var usedDefs := p.UsedBy(symbol);
      ghost var parts := [];
      ghost var all := QueryAll(p, usedDefs, path, recipes, visited);
      ProgressStart(p, md5, symbol, usedDefs, path, recipes, visited);
      var i := 0;
      while i < |usedDefs|
        invariant Valid(p, md5) && currentlyProcessed == path
        invariant Progress(p, md5, symbol, usedDefs, i, path, Answers(parts, recipes, visited), text, all)
      {
        ProgressStep(p, md5, symbol, usedDefs, i, path, Answers(parts, recipes, visited), text, all);
        ghost var part;
        var usedHash;
        usedHash, part := GetGlobalHash(usedDefs[i], p, md5);
        if usedHash.Some? {
          text := text + usedHash.value;
        }
        parts := parts + Present(part);
        i := i + 1;
      }
      ProgressDone(p, md5, symbol, usedDefs, path, Answers(parts, recipes, visited), text, all);
      currentlyProcessed := currentlyProcessed - {symbol};
      recipe := Some(Combined(symbol, parts));
      hash := Some(md5(text));
      RealisesUpdate(p, md5, globalHashes, recipes, symbol, recipe.value);
      globalHashes := globalHashes[symbol := hash.value];
      recipes := recipes[symbol := recipe.value];
    }
  }

  lemma {:induction false} JoinedAppend(p: Program, md5: string -> string, parts: seq<Recipe>, last: Recipe)
    ensures Joined(p, md5, parts + [last]) == Joined(p, md5, parts) + Value(p, md5, last)
  {
    if parts == [] {
      assert parts + [last] == [last] && [last][1..] == [];
    } else {
      JoinedAppend(p, md5, parts[1..], last);
      assert (parts + [last])[1..] == parts[1..] + [last];
    }
  }

  lemma TextAppend(p: Program, md5: string -> string, s: Symbol, parts: seq<Recipe>, last: Recipe)
    ensures Text(p, md5, s, parts + [last]) == Text(p, md5, s, parts) + Value(p, md5, last)
  {
    JoinedAppend(p, md5, parts, last);
  }

  /** After `i` used definitions: `now` holds their recipes and the state reached, `text` is what MD5 was fed,
      and the remaining queries lead to `all`. */
  ghost predicate Progress(p: Program, md5: string -> string, s: Symbol, todo: seq<Symbol>, i: int,
                           inProgress: set<Symbol>, now: Answers, text: string, all: Answers)
  {
    && 0 <= i <= |todo|
    && text == Text(p, md5, s, now.parts)
    && var rest := QueryAll(p, todo[i..], inProgress, now.table, now.visited);
       all == rest.(parts := now.parts + rest.parts)
  }

  lemma ProgressStart(p: Program, md5: string -> string, s: Symbol, todo: seq<Symbol>, inProgress: set<Symbol>,
                      table: Table, visited: set<Symbol>)
    ensures Progress(p, md5, s, todo, 0, inProgress, Answers([], table, visited), p.LocalHash(s),
                     QueryAll(p, todo, inProgress, table, visited))
  {
    assert Joined(p, md5, []) == "" && todo[0..] == todo;
    assert p.LocalHash(s) + "" == p.LocalHash(s);
  }

  lemma ProgressStep(p: Program, md5: string -> string, s: Symbol, todo: seq<Symbol>, i: int,
                     inProgress: set<Symbol>, now: Answers, text: string, all: Answers)
    requires Progress(p, md5, s, todo, i, inProgress, now, text, all) && i < |todo|
    ensures var first := Query(p, todo[i], inProgress, now.table, now.visited);
            var next := Answers(now.parts + Present(first.recipe), first.table, first.visited);
            var more := if first.recipe.Some? then text + Value(p, md5, first.recipe.value) else text;
            Progress(p, md5, s, todo, i + 1, inProgress, next, more, all)
  {
    var first := Query(p, todo[i], inProgress, now.table, now.visited);
    if first.recipe.Some? {
      TextAppend(p, md5, s, now.parts, first.recipe.value);
    } else {
      assert now.parts + Present(first.recipe) == now.parts;
    }
    assert todo[i..][1..] == todo[i + 1..];
    var rest := QueryAll(p, todo[i + 1..], inProgress, first.table, first.visited);
    assert now.parts + (Present(first.recipe) + rest.parts) == now.parts + Present(first.recipe) + rest.parts;
  }

  lemma ProgressDone(p: Program, md5: string -> string, s: Symbol, todo: seq<Symbol>, inProgress: set<Symbol>,
                     now: Answers, text: string, all: Answers)
    requires Progress(p, md5, s, todo, |todo|, inProgress, now, text, all)
    ensures now == all && md5(text) == Value(p, md5, Combined(s, now.parts))
  {
    assert todo[|todo|..] == [];
    assert now.parts + [] == now.parts;
  }

  /** A query that has to compute. */
  lemma QueryMiss(p: Program, s: Symbol, inProgress: set<Symbol>, table: Table, visited: set<Symbol>)
    requires s in p.local && s !in table && s !in inProgress
    ensures var below := QueryAll(p, p.UsedBy(s), inProgress + {s}, table, visited + {s});
            var recipe := Combined(s, below.parts);
            Query(p, s, inProgress, table, visited) == Answer(Some(recipe), below.table[s := recipe], below.visited)
    ensures |p.local.Keys - (inProgress + {s})| < |p.local.Keys - inProgress|
  {
    StartingShrinks(p, s, inProgress);
  }

  lemma RealisesUpdate(p: Program, md5: string -> string, hashes: map<Symbol, string>, table: Table,
                       s: Symbol, r: Recipe)
    requires Realises(p, md5, hashes, table)
    ensures Realises(p, md5, hashes[s := Value(p, md5, r)], table[s := r])
  {
  }
}
