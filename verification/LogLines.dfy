/** The lines of a build log: how the compiler wrapper writes a record (wrappers/gcc) and how the consistency checker
    reads it (wrappers/compare-logs). */
module LogLines {

  datatype Record = Record(fn: string, ast: string, obj: string)

  /** The fields of a line by name. */
  type Fields = map<string, string>

  const PREFIX := "INFO:root:clang-hash"

  predicate IsSpace(c: char) {
    c == ' ' || c == '\t' || c == '\n' || c == '\r' || c == '\U{0B}' || c == '\U{0C}'
  }

  predicate NoSpace(s: string) {
    forall i :: 0 <= i < |s| ==> !IsSpace(s[i])
  }

  /** The length of the word at the start. */
  function WordLength(s: string): (n: nat)
    ensures n <= |s| && NoSpace(s[..n]) && (n < |s| ==> IsSpace(s[n]))
  {
    if s == "" || IsSpace(s[0]) then 0 else 1 + WordLength(s[1..])
  }

  /** Splitting at white space; stripping the line first makes no difference. */
  function Words(s: string): seq<string> {
    if s == "" then []
    else if IsSpace(s[0]) then Words(s[1..])
    else
      var n := WordLength(s);
      [s[..n]] + Words(s[n..])
  }

  /** The position of the first colon, or the length. */
  function Colon(w: string): (c: nat)
    ensures c <= |w| && (forall i :: 0 <= i < c ==> w[i] != ':') && (c < |w| ==> w[c] == ':')
  {
    if w == "" || w[0] == ':' then 0 else 1 + Colon(w[1..])
  }

  /** Words with a colon are fields, of which the last of a name counts. */
  function FieldsIn(words: seq<string>): Fields {
    if words == [] then map[]
    else
      var before, w := FieldsIn(words[..|words| - 1]), words[|words| - 1];
      if Colon(w) < |w| then before[w[..Colon(w)] := w[Colon(w) + 1..]] else before
  }

  /** The fields of a line; other lines of the log have none. */
  function FieldsOf(line: string): Fields {
    if PREFIX <= line then FieldsIn(Words(line[|PREFIX|..])) else map[]
  }

  predicate Complete(d: Fields) {
    "fn" in d && "ast" in d && "obj" in d
  }

  function RecordOf(d: Fields): Record
    requires Complete(d)
  {
    Record(d["fn"], d["ast"], d["obj"])
  }

  /** Words with a blank before each, and the end of the line. */
  function Spaced(words: seq<string>): string {
    if words == [] then "\n" else " " + (words[0] + Spaced(words[1..]))
  }

  /** What the wrapper writes for a record. */
  function Line(r: Record): string {
    "INFO:root:clang-hash fn:" + r.fn + " obj:" + r.obj + " ast:" + r.ast + "\n"
  }

  lemma LineIsSpaced(r: Record)
    ensures Line(r) == PREFIX + Spaced(["fn:" + r.fn, "obj:" + r.obj, "ast:" + r.ast])
  {
    var f, o, a := "fn:" + r.fn, "obj:" + r.obj, "ast:" + r.ast;
    assert Spaced([f, o, a]) == " " + (f + (" " + (o + (" " + (a + "\n"))))) by {
      assert [f, o, a][1..] == [o, a] && [o, a][1..] == [a] && [a][1..] == [];
      assert Spaced([a]) == " " + (a + "\n");
      assert Spaced([o, a]) == " " + (o + Spaced([a]));
    }
    assert Line(r) == "INFO:root:clang-hash" + (" " + (f + (" " + (o + (" " + (a + "\n"))))));
  }

  /** Splitting, on any text: a blank separates what is before it from what is after it, and a text without blanks is
      one word. */
  lemma {:induction false} WordsSplitAtSpace(a: string, blank: char, b: string)
    requires IsSpace(blank)
    ensures Words(a + [blank] + b) == Words(a) + Words(b)
    decreases |a|
  {
    var s := a + [blank] + b;
    if a == "" {
      assert s[1..] == b;
    } else if IsSpace(a[0]) {
      assert s[1..] == a[1..] + [blank] + b;
      WordsSplitAtSpace(a[1..], blank, b);
    } else {
      var n := WordLength(a);
      FirstWord(a, [blank] + b);
      assert s == a + ([blank] + b) && s[..n] == a[..n] && s[n..] == a[n..] + [blank] + b;
      WordsSplitAtSpace(a[n..], blank, b);
    }
  }

  /** What follows a blank does not change the first word. */
  lemma {:induction false} FirstWord(a: string, rest: string)
    requires rest != "" && IsSpace(rest[0])
    ensures WordLength(a + rest) == WordLength(a)
  {
    if a == "" {
      assert a + rest == rest;
    } else if !IsSpace(a[0]) {
      assert (a + rest)[1..] == a[1..] + rest;
      FirstWord(a[1..], rest);
    }
  }

  lemma OneWord(w: string)
    requires w != "" && NoSpace(w)
    ensures Words(w) == [w]
  {
    assert w[..|w|] == w && w[|w|..] == "";
  }

  lemma {:induction false} WordsHaveNoSpace(s: string)
    ensures forall w :: w in Words(s) ==> NoSpace(w)
    decreases |s|
  {
    if s != "" {
      if IsSpace(s[0]) {
        WordsHaveNoSpace(s[1..]);
      } else {
        WordsHaveNoSpace(s[WordLength(s)..]);
      }
    }
  }

  lemma {:induction false} ValuesHaveNoSpace(words: seq<string>)
    requires forall w :: w in words ==> NoSpace(w)
    ensures forall k :: k in FieldsIn(words) ==> NoSpace(FieldsIn(words)[k])
  {
    if words != [] {
      ValuesHaveNoSpace(words[..|words| - 1]);
      assert words[|words| - 1] in words;
    }
  }

  lemma BlankAndWord(w: string, rest: string)
    requires w != "" && NoSpace(w) && rest != "" && IsSpace(rest[0])
    ensures Words(" " + (w + rest)) == [w] + Words(rest)
  {
    hide Words;
    NoWords();
    OneWord(w);
    assert " " + (w + rest) == "" + [' '] + (w + rest);
    WordsSplitAtSpace("", ' ', w + rest);
    assert w + rest == w + [rest[0]] + rest[1..] && rest == "" + [rest[0]] + rest[1..];
    WordsSplitAtSpace(w, rest[0], rest[1..]);
    WordsSplitAtSpace("", rest[0], rest[1..]);
  }

  lemma {:induction false} WordsOfSpaced(words: seq<string>)
    requires forall i :: 0 <= i < |words| ==> words[i] != "" && NoSpace(words[i])
    ensures Words(Spaced(words)) == words
  {
    if words == [] {
      assert "\n"[1..] == "";
    } else {
      WordsOfSpaced(words[1..]);
      BlankAndWord(words[0], Spaced(words[1..]));
    }
  }

  lemma NoWords()
    ensures Words("") == []
  {
  }

  lemma ColonAfter(name: string, value: string)
    requires name in {"fn", "obj", "ast"}
    ensures var w := name + ":" + value;
            Colon(w) == |name| < |w| && w[..Colon(w)] == name && w[Colon(w) + 1..] == value
  {
    var w := name + ":" + value;
    assert w[|name|] == ':' && forall i :: 0 <= i < |name| ==> w[i] == name[i];
  }

  lemma NoSpaceAnywhere(x: string, y: string, z: string)
    ensures NoSpace(x) && NoSpace(y) && NoSpace(z) <==>
            forall i :: 0 <= i < |x + y + z| ==> (x + y + z)[i] !in {' ', '\t', '\n', '\r', '\U{0B}', '\U{0C}'}
  {
    var s := x + y + z;
    assert NoSpace(s) ==> NoSpace(s[..|x|]) && NoSpace(s[|x|..|x + y|]) && NoSpace(s[|x + y|..]);
    assert s[..|x|] == x && s[|x|..|x + y|] == y && s[|x + y|..] == z;
  }

  lemma ThreeFields(r: Record)
    ensures FieldsIn(["fn:" + r.fn, "obj:" + r.obj, "ast:" + r.ast])
            == map["fn" := r.fn, "obj" := r.obj, "ast" := r.ast]
  {
    ColonAfter("fn", r.fn);
    ColonAfter("obj", r.obj);
    ColonAfter("ast", r.ast);
    var f, o, a := "fn:" + r.fn, "obj:" + r.obj, "ast:" + r.ast;
    assert "fn" + ":" + r.fn == f && "obj" + ":" + r.obj == o && "ast" + ":" + r.ast == a;
    assert [f, o, a][..2] == [f, o] && [f, o][..1] == [f] && [f][..0] == [];
    assert FieldsIn([f]) == map["fn" := r.fn];
    assert FieldsIn([f, o]) == map["fn" := r.fn, "obj" := r.obj];
  }

  /** A record is read back from its line exactly when none of its parts contains white space. */
  lemma RecordReadsBackIffNoSpace(r: Record)
    ensures Complete(FieldsOf(Line(r))) && RecordOf(FieldsOf(Line(r))) == r
       <==> forall i :: 0 <= i < |r.fn + r.obj + r.ast| ==>
              (r.fn + r.obj + r.ast)[i] !in {' ', '\t', '\n', '\r', '\U{0B}', '\U{0C}'}
  {
    NoSpaceAnywhere(r.fn, r.obj, r.ast);
    LineIsSpaced(r);
    var words := ["fn:" + r.fn, "obj:" + r.obj, "ast:" + r.ast];
    assert Line(r)[|PREFIX|..] == Spaced(words) && PREFIX <= Line(r);
    var found := Words(Spaced(words));
    WordsHaveNoSpace(Spaced(words));
    ValuesHaveNoSpace(found);
    if NoSpace(r.fn) && NoSpace(r.obj) && NoSpace(r.ast) {
      WordsOfSpaced(words);
      ThreeFields(r);
    }
  }
}
