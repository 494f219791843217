/**
 * Which names count as built in, and the two dependency collectors:
 * `collectTypeDependencies` (the fast path, recursive, inserting into a
 * caller-owned `Set`) and `findDependencies` (the full path, one pass over
 * the mapped property types).
 *
 * A JavaScript `Set` of strings is a duplicate-free sequence in insertion
 * order; inserting the names `ns` into the set `deps` gives
 * `Distinct(deps + ns)`.
 */
module Dependencies {
  import opened Options
  import opened Text
  import opened Sequences
  import opened TypeMapper

  /** The fixed list of `isBuiltInType`. */
  const BuiltInNames: set<string> := {
    "string", "number", "boolean", "Date", "any", "void", "undefined", "null",
    "List", "ArrayList", "Set", "HashSet", "Map", "HashMap", "Collection",
    "Object", "Class"
  }

  /** `isBuiltInType`: on the fixed list, or an own key of the type table. */
  predicate IsBuiltInType(t: string) {
    t in BuiltInNames || t in TypeTable
  }

  /** Every built-in name is a word. */
  lemma BuiltInsAreWords(t: string)
    requires IsBuiltInType(t)
    ensures IsWord(t)
  {
    if t in TypeTable {
      TableKeysAreWords();
    }
  }

  /** A text holding a non-word character is never built in. */
  lemma NotBuiltIn(t: string, i: int)
    requires 0 <= i < |t| && !IsWordChar(t[i])
    ensures !IsBuiltInType(t)
  {
    if IsBuiltInType(t) {
      BuiltInsAreWords(t);
    }
  }

  // ---------------------------------------------------------------------------
  // collectTypeDependencies

  /**
   * The match of `^([^<]+)<(.+)>$`: the container is everything before the
   * first `<`, the inner text runs from there to a final `>`, and `.` stops at
   * line terminators.
   */
  function MatchContainer(t: string): (r: Option<Generic>)
    ensures r.Some? ==> 0 < |r.value.container| && 0 < |r.value.inner| < |t|
  {
    var i := IndexOf(t, '<');
    if 0 < i && i + 2 < |t| && t[|t| - 1] == '>' && NoLineTerminator(t[i + 1..|t| - 1])
    then Some(Generic(t[..i], t[i + 1..|t| - 1]))
    else None
  }

  /**
   * The names `collectTypeDependencies(t, set)` tries to insert into the set,
   * in order, repetitions included.
   */
  function Names(t: string): seq<string>
    decreases |t|, 3
  {
    if t == [] || IsBuiltInType(t) then []
    else if EndsWith(t, "[]") then Names(t[..|t| - 2])
    else if '<' in t then GenericNames(t)
    else if ',' in t then
      CommaPiecesShorter(t);
      NamesOfAll(CommaPieces(t), |t|)
    else AtomNames(t)
  }

  /** A generic `Container<inner>`: the container unless built in, then the names of each inner type. */
  function GenericNames(t: string): seq<string>
    decreases |t|, 2
  {
    match MatchContainer(t)
    case None => []
    case Some(g) => MatchedNames(g, |t|)
  }

  /** The names tried for a matched generic whose inner text is shorter than `bound`. */
  function MatchedNames(g: Generic, bound: nat): seq<string>
    requires |g.inner| < bound
    decreases bound, 1
  {
    SplitTopLevelLength(g.inner);
    ContainerName(Trim(g.container)) + NamesOfAll(SplitTopLevel(g.inner), bound)
  }

  /** A single type: its trimmed text when that is a class name and not built in. */
  function AtomNames(t: string): seq<string> {
    var clean := Trim(t);
    if clean != [] && !IsBuiltInType(clean) && IsClassName(clean) then [clean] else []
  }

  /** The trimmed pieces of `t.split(',')`. */
  function CommaPieces(t: string): seq<string> {
    TrimAll(Split(t, ','))
  }

  lemma CommaPiecesShorter(t: string)
    requires ',' in t
    ensures forall p | p in CommaPieces(t) :: |p| < |t|
  {
    var ps := Split(t, ',');
    forall p | p in CommaPieces(t)
      ensures |p| < |t|
    {
      var i :| 0 <= i < |ps| && p == Trim(ps[i]);
      assert ps[i] in ps;
    }
  }

  /** The names tried for each of `ts` in turn; `bound` exceeds every length in `ts`. */
  function NamesOfAll(ts: seq<string>, bound: nat): seq<string>
    requires forall p | p in ts :: |p| < bound
    decreases bound, 0, |ts|
  {
    if ts == [] then []
    else
      assert ts[|ts| - 1] in ts;
      NamesOfAll(ts[..|ts| - 1], bound) + Names(ts[|ts| - 1])
  }

  /** `split(',')` followed by `trim()` on each piece. */
  function TrimAll(ps: seq<string>): (r: seq<string>)
    ensures |r| == |ps|
    ensures forall i | 0 <= i < |ps| :: r[i] == Trim(ps[i])
  {
    if ps == [] then [] else [Trim(ps[0])] + TrimAll(ps[1..])
  }

  /** The bound of `NamesOfAll` does not change its value. */
  lemma {:induction false} NamesOfAllBound(ts: seq<string>, b1: nat, b2: nat)
    requires forall p | p in ts :: |p| < b1
    requires forall p | p in ts :: |p| < b2
    ensures NamesOfAll(ts, b1) == NamesOfAll(ts, b2)
    decreases |ts|
  {
    if ts != [] {
      NamesOfAllBound(ts[..|ts| - 1], b1, b2);
    }
  }

  /** `NamesOfAll` over a sequence extended by one element. */
  lemma NamesOfAllSnoc(ts: seq<string>, i: nat, bound: nat)
    requires i < |ts|
    requires forall p | p in ts :: |p| < bound
    ensures NamesOfAll(ts[..i + 1], bound) == NamesOfAll(ts[..i], bound) + Names(ts[i])
  {
    assert ts[..i + 1][..i] == ts[..i];
    assert forall p | p in ts[..i + 1] :: p in ts;
  }

  /** One more name list inserted after the earlier ones. */
  lemma InsertNext(prefix: seq<string>, ts: seq<string>, i: nat, bound: nat)
    requires i < |ts|
    requires forall p | p in ts :: |p| < bound
    ensures Distinct(Distinct(prefix + NamesOfAll(ts[..i], bound)) + Names(ts[i]))
         == Distinct(prefix + NamesOfAll(ts[..i + 1], bound))
  {
    var before := NamesOfAll(ts[..i], bound);
    var n := Names(ts[i]);
    NamesOfAllSnoc(ts, i, bound);
    AppendAssoc(prefix, before, n);
    DistinctAbsorbs(prefix + before, n);
  }

  lemma AppendAssoc(a: seq<string>, b: seq<string>, c: seq<string>)
    ensures a + (b + c) == a + b + c
  {
  }

  /**
   * `collectTypeDependencies`: inserts into the set `deps` every name of `t`
   * that needs an import. The caller's set is passed in and handed back.
   */
  method CollectTypeDependencies(t: string, deps: seq<string>) returns (result: seq<string>)
    requires NoDups(deps)
    ensures result == Distinct(deps + Names(t))
    decreases |t|, 2
  {
    DistinctOfNoDups(deps);
    if t == [] || IsBuiltInType(t) {
      assert deps + [] == deps;
      return deps;
    }
    if EndsWith(t, "[]") {
      result := CollectTypeDependencies(t[..|t| - 2], deps);
    } else if '<' in t {
      result := CollectGeneric(t, deps);
    } else if ',' in t {
      CommaPiecesShorter(t);
      result := CollectEach(CommaPieces(t), |t|, deps);
    } else {
      var clean := Trim(t);
      result := deps;
      if clean != [] && !IsBuiltInType(clean) && IsClassName(clean) {
        DistinctSnoc(deps, clean);
        if clean !in deps {
          result := deps + [clean];
        }
      } else {
        assert deps + [] == deps;
      }
    }
  }

  /** The container name tried for a generic: none when it is built in. */
  function ContainerName(container: string): seq<string> {
    if IsBuiltInType(container) then [] else [container]
  }

  /** Inserting at most one name into a set. */
  lemma InsertOne(deps: seq<string>, xs: seq<string>)
    requires NoDups(deps) && |xs| <= 1
    ensures Distinct(deps + xs) == if xs == [] || xs[0] in deps then deps else deps + xs
  {
    DistinctOfNoDups(deps);
    if xs == [] {
      assert deps + xs == deps;
    } else {
      assert xs == [xs[0]];
      DistinctSnoc(deps, xs[0]);
    }
  }

  /** The generic branch of `collectTypeDependencies`. */
  method CollectGeneric(t: string, deps: seq<string>) returns (result: seq<string>)
    requires NoDups(deps)
    ensures result == Distinct(deps + GenericNames(t))
    decreases |t|, 1
  {
    var m := MatchContainer(t);
    if m.None? {
      InsertOne(deps, []);
      return deps;
    }
    var containerType := Trim(m.value.container);
    var innerTypes := ParseGenericTypes(m.value.inner);
    SplitTopLevelLength(m.value.inner);
    var head := ContainerName(containerType);
    result := deps;
    if !IsBuiltInType(containerType) && containerType !in deps {
      result := deps + [containerType];
    }
    InsertOne(deps, head);
    DistinctElements(deps + head);
    result := CollectEach(innerTypes, |t|, result);
    DistinctAbsorbs(deps + head, NamesOfAll(innerTypes, |t|));
    AppendAssoc(deps, head, NamesOfAll(innerTypes, |t|));
  }

  /** `forEach` over a list of types, collecting each in turn into the same set. */
  method CollectEach(ts: seq<string>, bound: nat, deps: seq<string>) returns (result: seq<string>)
    requires NoDups(deps)
    requires forall p | p in ts :: |p| < bound
    ensures result == Distinct(deps + NamesOfAll(ts, bound))
    decreases bound, 0
  {
    result := deps;
    DistinctOfNoDups(deps);
    assert deps + [] == deps;
    for i := 0 to |ts|
      invariant NoDups(result)
      invariant result == Distinct(deps + NamesOfAll(ts[..i], bound))
    {
      assert ts[i] in ts;
      result := CollectTypeDependencies(ts[i], result);
      InsertNext(deps, ts, i, bound);
      DistinctElements(deps + NamesOfAll(ts[..i + 1], bound));
    }
    assert ts[..|ts|] == ts;
  }

  // ---------------------------------------------------------------------------
  // Properties of collectTypeDependencies

  /** A name that may be inserted: trimmed and not built in. */
  predicate Insertable(n: string) {
    Trim(n) == n && !IsBuiltInType(n)
  }

  /** Every name the collector inserts is trimmed and not built in. */
  lemma {:induction false} NamesInsertable(t: string)
    ensures forall n | n in Names(t) :: Insertable(n)
    decreases |t|, 3
  {
    if t == [] || IsBuiltInType(t) {
    } else if EndsWith(t, "[]") {
      NamesInsertable(t[..|t| - 2]);
    } else if '<' in t {
      GenericNamesInsertable(t);
    } else if ',' in t {
      CommaPiecesShorter(t);
      NamesOfAllInsertable(CommaPieces(t), |t|);
    } else {
      TrimIdempotent(t);
    }
  }

  lemma {:induction false} GenericNamesInsertable(t: string)
    ensures forall n | n in GenericNames(t) :: Insertable(n)
    decreases |t|, 2
  {
    match MatchContainer(t)
    case None =>
    case Some(g) =>
      MatchedNamesInsertable(g, |t|);
  }

  lemma {:induction false} MatchedNamesInsertable(g: Generic, bound: nat)
    requires |g.inner| < bound
    ensures forall n | n in MatchedNames(g, bound) :: Insertable(n)
    decreases bound, 1
  {
    SplitTopLevelLength(g.inner);
    TrimIdempotent(g.container);
    NamesOfAllInsertable(SplitTopLevel(g.inner), bound);
  }

  lemma {:induction false} NamesOfAllInsertable(ts: seq<string>, bound: nat)
    requires forall p | p in ts :: |p| < bound
    ensures forall n | n in NamesOfAll(ts, bound) :: Insertable(n)
    decreases bound, 0, |ts|
  {
    if ts != [] {
      assert ts[|ts| - 1] in ts;
      NamesOfAllInsertable(ts[..|ts| - 1], bound);
      NamesInsertable(ts[|ts| - 1]);
    }
  }

  /**
   * The collector never removes from the set: the names already there stay
   * first and in order, and afterwards the set holds exactly those names and
   * the tried names, none of them built in.
   */
  lemma CollectGrowsSet(deps: seq<string>, t: string)
    requires NoDups(deps)
    ensures |deps| <= |Distinct(deps + Names(t))|
    ensures Distinct(deps + Names(t))[..|deps|] == deps
    ensures forall n :: n in Distinct(deps + Names(t)) <==> n in deps || n in Names(t)
    ensures forall n | n in Distinct(deps + Names(t)) && n !in deps :: Insertable(n)
  {
    DistinctKeepsPrefix(deps, Names(t));
    DistinctElements(deps + Names(t));
    NamesInsertable(t);
  }

  /** Collecting the same type a second time changes nothing. */
  lemma CollectTwice(deps: seq<string>, t: string)
    ensures Distinct(Distinct(deps + Names(t)) + Names(t)) == Distinct(deps + Names(t))
  {
    DistinctAbsorbs(deps + Names(t), Names(t));
    AppendAssoc(deps, Names(t), Names(t));
    DistinctAppendPresent(deps + Names(t), Names(t));
  }

  /**
   * A type without `<` and `,` (possibly with trailing `[]`) contributes at
   * most one name, and only a class name matching `^[A-Z][a-zA-Z0-9_]*$`
   * that is not built in.
   */
  lemma {:induction false} FlatNames(t: string)
    requires '<' !in t && ',' !in t
    ensures |Names(t)| <= 1
    ensures forall n | n in Names(t) :: IsClassName(n) && !IsBuiltInType(n)
    decreases |t|
  {
    if t == [] || IsBuiltInType(t) {
    } else if EndsWith(t, "[]") {
      assert forall c | c in t[..|t| - 2] :: c in t;
      FlatNames(t[..|t| - 2]);
    }
  }

  /** The atom rule: a plain name is inserted exactly when its trim is a class name and not built in. */
  lemma AtomRule(t: string)
    requires '<' !in t && ',' !in t && !EndsWith(t, "[]") && !IsBuiltInType(t)
    ensures Names(t) == (if Trim(t) != [] && !IsBuiltInType(Trim(t)) && IsClassName(Trim(t)) then [Trim(t)] else [])
  {
  }

  /** `Name<x>` matches the container pattern with exactly that name and inner text. */
  lemma MatchContainerOf(c: string, x: string)
    requires c != [] && '<' !in c && x != [] && NoLineTerminator(x)
    ensures MatchContainer(c + "<" + x + ">") == Some(Generic(c, x))
  {
    var t := c + "<" + x + ">";
    assert t == c + (['<'] + x + ">");
    IndexOfAfter(c, ['<'] + x + ">", '<');
    assert t[..|c|] == c;
    assert t[|c| + 1..|t| - 1] == x;
  }

  lemma IndexOfAfter(a: string, b: string, ch: char)
    requires ch !in a && b != [] && b[0] == ch
    ensures IndexOf(a + b, ch) == |a|
  {
    var s := a + b;
    assert s[|a|] == ch;
    assert forall i | 0 <= i < |a| :: s[i] == a[i];
    forall j | |a| < j <= |s|
      ensures ch in s[..j]
    {
      assert s[..j][|a|] == ch;
    }
  }

  /**
   * The container rule: for `Name<x>` the trimmed name is inserted unless it
   * is built in, then the names of each top-level argument of `x` in order.
   */
  lemma ContainerRule(c: string, x: string)
    requires c != [] && '<' !in c && x != [] && NoLineTerminator(x)
    ensures Names(c + "<" + x + ">") == MatchedNames(Generic(c, x), |c + "<" + x + ">"|)
  {
    var t := c + "<" + x + ">";
    MatchContainerOf(c, x);
    assert t[|t| - 1] == '>';
    NotBuiltIn(t, |c|);
    assert '<' in t by { assert t[|c|] == '<'; }
    assert !EndsWith(t, "[]") by { assert t[|t| - 1] != ']'; }
  }

  /** A word splits into itself. */
  lemma SplitWord(w: string)
    requires IsWord(w)
    ensures SplitTopLevel(w) == [w]
  {
    assert ',' !in w by {
      forall i | 0 <= i < |w| ensures w[i] != ',' {
        assert IsWordChar(w[i]);
      }
    }
    CommaFree(w, 0);
    SplitWithoutTopComma(w);
    WordShape(w);
  }

  /** A class name is a word, so it holds no line break, angle bracket or comma. */
  lemma ClassNameShape(n: string)
    requires IsClassName(n)
    ensures IsWord(n) && NoLineTerminator(n) && '<' !in n && ',' !in n
  {
    assert IsWordChar(n[0]);
    WordShapeChars(n);
  }

  /** A word holds no line break, angle bracket or comma. */
  lemma WordShapeChars(n: string)
    requires IsWord(n)
    ensures NoLineTerminator(n) && '<' !in n && ',' !in n
  {
    forall i | 0 <= i < |n| ensures n[i] != '<' && n[i] != ',' && !IsLineTerminator(n[i]) {
      assert IsWordChar(n[i]);
    }
  }

  /** A class name that is not built in is inserted as it is. */
  lemma ClassNameInserted(n: string)
    requires IsClassName(n) && !IsBuiltInType(n)
    ensures Names(n) == [n]
  {
    ClassNameShape(n);
    WordShape(n);
    SplitWord(n);
    AtomRule(n);
  }

  /** `C<W>` for a built-in word `C` and a custom class name `W` needs only `W`. */
  lemma BuiltInContainerOfClass(c: string, w: string)
    requires IsWord(c) && IsBuiltInType(c)
    requires IsClassName(w) && !IsBuiltInType(w)
    ensures Names(c + "<" + w + ">") == [w]
  {
    var t := c + "<" + w + ">";
    WordShapeChars(c);
    ClassNameShape(w);
    ContainerRule(c, w);
    WordShape(c);
    SplitWord(w);
    ClassNameInserted(w);
    SplitTopLevelLength(w);
    assert [w][..0] == [];
    assert NamesOfAll([w], |t|) == NamesOfAll([], |t|) + Names(w);
  }

  /** `List<EntityRef>` needs only `EntityRef`: the container is built in. */
  lemma CollectListExample()
    ensures Names("List<EntityRef>") == ["EntityRef"]
  {
    assert "List<EntityRef>" == "List" + "<" + "EntityRef" + ">";
    assert IsWord("List") && IsBuiltInType("List");
    assert IsClassName("EntityRef") && !IsBuiltInType("EntityRef");
    BuiltInContainerOfClass("List", "EntityRef");
  }

  // ---------------------------------------------------------------------------
  // findDependencies

  /**
   * The first match of `/<([^>]+)>/` in `t` searched from index `i`: the text
   * after a `<` up to the next `>`, which must not be empty.
   */
  function AngleGroupFrom(t: string, i: nat): (r: Option<string>)
    requires i <= |t|
    ensures r.Some? ==> |r.value| < |t|
    decreases |t| - i
  {
    if i == |t| then None
    else if t[i] == '<' && 0 < IndexOf(t[i + 1..], '>') then
      Some(t[i + 1..i + 1 + IndexOf(t[i + 1..], '>')])
    else AngleGroupFrom(t, i + 1)
  }

  /** The captured group of `t.match(/<([^>]+)>/)`. */
  function AngleGroup(t: string): Option<string> {
    AngleGroupFrom(t, 0)
  }

  /** The types of `ts` that are not built in, in order. */
  function CustomTypes(ts: seq<string>): (r: seq<string>)
    ensures forall n | n in r :: n in ts && !IsBuiltInType(n)
    ensures forall n | n in ts && !IsBuiltInType(n) :: n in r
  {
    if ts == [] then []
    else
      var last := ts[|ts| - 1];
      assert forall n | n in ts :: n in ts[..|ts| - 1] || n == last;
      CustomTypes(ts[..|ts| - 1]) + (if IsBuiltInType(last) then [] else [last])
  }

  /** The names `findDependencies` adds for one property type, in order. */
  function Candidates(typ: string): seq<string> {
    if IsBuiltInType(typ) then []
    else if EndsWith(typ, "[]") then
      var base := typ[..|typ| - 2];
      if IsBuiltInType(base) then [] else [base]
    else if '<' in typ && '>' in typ then
      match AngleGroup(typ)
      case None => []
      case Some(group) => CustomTypes(SplitTopLevel(group))
    else [typ]
  }

  /** The names added for each property type in turn. */
  function AllCandidates(types: seq<string>): seq<string> {
    if types == [] then [] else AllCandidates(types[..|types| - 1]) + Candidates(types[|types| - 1])
  }

  /**
   * `findDependencies`: the distinct candidate names of the property types,
   * in order of first appearance.
   */
  method FindDependencies(types: seq<string>) returns (deps: seq<string>)
    ensures deps == Distinct(AllCandidates(types))
  {
    deps := [];
    for i := 0 to |types|
      invariant deps == Distinct(AllCandidates(types[..i]))
    {
      assert types[..i + 1][..i] == types[..i];
      var typ := types[i];
      var added: seq<string> := [];
      if !IsBuiltInType(typ) {
        if EndsWith(typ, "[]") {
          var baseType := typ[..|typ| - 2];
          if !IsBuiltInType(baseType) {
            added := [baseType];
          }
        } else if '<' in typ && '>' in typ {
          var m := AngleGroup(typ);
          if m.Some? {
            var innerTypes := ParseGenericTypes(m.value);
            added := FilterBuiltIns(innerTypes);
          }
        } else {
          added := [typ];
        }
      }
      assert added == Candidates(typ);
      DistinctAbsorbs(AllCandidates(types[..i]), added);
      deps := Distinct(deps + added);
    }
    assert types[..|types|] == types;
  }

  /** The `forEach` over the inner types that skips the built-in ones. */
  method FilterBuiltIns(ts: seq<string>) returns (r: seq<string>)
    ensures r == CustomTypes(ts)
  {
    r := [];
    for i := 0 to |ts|
      invariant r == CustomTypes(ts[..i])
    {
      assert ts[..i + 1][..i] == ts[..i];
      if !IsBuiltInType(ts[i]) {
        r := r + [ts[i]];
      }
    }
    assert ts[..|ts|] == ts;
  }

  /** The full path collects each name once, in order of first appearance, and never a built-in one. */
  lemma FindDependenciesElements(types: seq<string>)
    ensures NoDups(Distinct(AllCandidates(types)))
    ensures forall n :: n in Distinct(AllCandidates(types)) <==> n in AllCandidates(types)
    ensures forall n | n in AllCandidates(types) :: !IsBuiltInType(n)
  {
    DistinctElements(AllCandidates(types));
    AllCandidatesCustom(types);
  }

  lemma {:induction false} AllCandidatesCustom(types: seq<string>)
    ensures forall n | n in AllCandidates(types) :: !IsBuiltInType(n)
  {
    if types != [] {
      AllCandidatesCustom(types[..|types| - 1]);
      var typ := types[|types| - 1];
      if !IsBuiltInType(typ) && !EndsWith(typ, "[]") && '<' in typ && '>' in typ {
        match AngleGroup(typ)
        case None =>
        case Some(group) =>
          assert forall n | n in CustomTypes(SplitTopLevel(group)) :: !IsBuiltInType(n);
      }
    }
  }

  /** An array of a custom type needs the element type, taken without trimming. */
  lemma ArrayCandidate(e: string)
    requires !IsBuiltInType(e)
    ensures Candidates(e + "[]") == [e]
  {
    var t := e + "[]";
    NotBuiltIn(t, |t| - 1);
    assert t[..|t| - 2] == e;
  }

  /**
   * A type without angle brackets that is not built in and not an array is
   * taken whole, whatever characters it holds.
   */
  lemma PlainCandidate(t: string)
    requires !IsBuiltInType(t) && !EndsWith(t, "[]") && ('<' !in t || '>' !in t)
    ensures Candidates(t) == [t]
  {
  }

  /**
   * The mapped type of `Optional<X>`, when `X` maps to a type without `<`,
   * is taken whole as a dependency name: for `Optional<Long>` the full path
   * would import a type named `number | undefined`.
   */
  lemma OptionalTypeQuirk(x: string)
    requires x != [] && NoLineTerminator(x) && '<' !in MapType(x)
    ensures Candidates(MapType("Optional<" + x + ">")) == [MapType(x) + " | undefined"]
  {
    MapTypeOptional(x);
    var q := MapType(x) + " | undefined";
    assert q[|MapType(x)|] == ' ';
    NotBuiltIn(q, |MapType(x)|);
    assert q[|q| - 1] == 'd';
    assert '<' !in q by {
      forall i | 0 <= i < |q| ensures q[i] != '<' {
        if i < |MapType(x)| { assert q[i] == MapType(x)[i]; }
      }
    }
  }
}
