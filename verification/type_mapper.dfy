/**
 * The type mapper: `convertJavaTypeToTS` and the depth-counting comma
 * splitter `parseGenericTypes` it uses for `Map<K, V>`.
 */
module TypeMapper {
  import opened Options
  import opened Text

  /** The fixed table of built-in Java types and the TypeScript type each becomes. */
  const TypeTable: map<string, string> := map[
    "String" := "string",
    "int" := "number",
    "Integer" := "number",
    "long" := "number",
    "Long" := "number",
    "double" := "number",
    "Double" := "number",
    "float" := "number",
    "Float" := "number",
    "boolean" := "boolean",
    "Boolean" := "boolean",
    "char" := "string",
    "Character" := "string",
    "byte" := "number",
    "Byte" := "number",
    "short" := "number",
    "Short" := "number",
    "Object" := "any",
    "void" := "void",
    "Date" := "Date",
    "LocalDate" := "Date",
    "LocalDateTime" := "Date",
    "BigDecimal" := "number",
    "BigInteger" := "number",
    "UUID" := "string"
  ]

  /** Generic containers that become TypeScript arrays. */
  const CollectionNames: set<string> := {"List", "ArrayList", "Set", "Collection"}

  /** Generic containers that become index-signature types when given two arguments. */
  const MapNames: set<string> := {"Map", "HashMap"}

  // ---------------------------------------------------------------------------
  // parseGenericTypes

  /** The change of nesting depth caused by one character. */
  function Delta(c: char): int {
    if c == '<' then 1 else if c == '>' then -1 else 0
  }

  /** The nesting depth reached after reading `s` from depth 0: opened `<` minus closed `>`. */
  function Nesting(s: string): int {
    if s == [] then 0 else Delta(s[0]) + Nesting(s[1..])
  }

  /** No comma of `a` sits at nesting depth 0 when `a` is read from depth `d`. */
  predicate TopCommaFree(a: string, d: int) {
    forall i | 0 <= i < |a| :: a[i] == ',' ==> d + Nesting(a[..i]) != 0
  }

  /**
   * The splitter's state machine on the rest `s` of the input, at nesting
   * depth `depth`, with the text `current` of the piece being read.
   */
  function SplitFrom(s: string, depth: int, current: string): (r: seq<string>)
  {
    if s == [] then (if Trim(current) != [] then [Trim(current)] else [])
    else if s[0] == '<' then SplitFrom(s[1..], depth + 1, current + [s[0]])
    else if s[0] == '>' then SplitFrom(s[1..], depth - 1, current + [s[0]])
    else if s[0] == ',' && depth == 0 then [Trim(current)] + SplitFrom(s[1..], depth, [])
    else SplitFrom(s[1..], depth, current + [s[0]])
  }

  /** The pieces `parseGenericTypes` returns. */
  function SplitTopLevel(s: string): seq<string> {
    SplitFrom(s, 0, [])
  }

  /** A piece is never longer than the text it was cut from. */
  lemma {:induction false} SplitFromLength(s: string, depth: int, current: string)
    ensures forall p | p in SplitFrom(s, depth, current) :: |p| <= |current| + |s|
    decreases |s|
  {
    if s == [] {
    } else if s[0] == '<' {
      SplitFromLength(s[1..], depth + 1, current + [s[0]]);
    } else if s[0] == '>' {
      SplitFromLength(s[1..], depth - 1, current + [s[0]]);
    } else if s[0] == ',' && depth == 0 {
      SplitFromLength(s[1..], depth, []);
    } else {
      SplitFromLength(s[1..], depth, current + [s[0]]);
    }
  }

  lemma SplitTopLevelLength(s: string)
    ensures forall p | p in SplitTopLevel(s) :: |p| <= |s|
  {
    SplitFromLength(s, 0, []);
  }

  /** `parseGenericTypes`: split at the commas outside any `<...>` and trim each piece. */
  method ParseGenericTypes(s: string) returns (types: seq<string>)
    ensures types == SplitTopLevel(s)
  {
    types := [];
    var depth := 0;
    var current := "";
    for i := 0 to |s|
      invariant types + SplitFrom(s[i..], depth, current) == SplitTopLevel(s)
    {
      var c := s[i];
      assert s[i..][0] == c && s[i..][1..] == s[i + 1..];
      if c == '<' {
        depth := depth + 1;
        current := current + [c];
      } else if c == '>' {
        depth := depth - 1;
        current := current + [c];
      } else if c == ',' && depth == 0 {
        types := types + [Trim(current)];
        current := "";
      } else {
        current := current + [c];
      }
    }
    assert s[|s|..] == [];
    if Trim(current) != [] {
      types := types + [Trim(current)];
    }
  }

  /** Every piece is already trimmed. */
  lemma {:induction false} SplitFromTrimmed(s: string, depth: int, current: string)
    ensures forall p | p in SplitFrom(s, depth, current) :: Trim(p) == p
    decreases |s|
  {
    var r := SplitFrom(s, depth, current);
    if s == [] {
      TrimIdempotent(current);
    } else if s[0] == '<' {
      assert r == SplitFrom(s[1..], depth + 1, current + [s[0]]);
      SplitFromTrimmed(s[1..], depth + 1, current + [s[0]]);
    } else if s[0] == '>' {
      assert r == SplitFrom(s[1..], depth - 1, current + [s[0]]);
      SplitFromTrimmed(s[1..], depth - 1, current + [s[0]]);
    } else if s[0] == ',' && depth == 0 {
      assert r == [Trim(current)] + SplitFrom(s[1..], depth, []);
      TrimIdempotent(current);
      SplitFromTrimmed(s[1..], depth, []);
    } else {
      assert r == SplitFrom(s[1..], depth, current + [s[0]]);
      SplitFromTrimmed(s[1..], depth, current + [s[0]]);
    }
  }

  lemma SplitTopLevelTrimmed(s: string)
    ensures forall p | p in SplitTopLevel(s) :: Trim(p) == p
  {
    SplitFromTrimmed(s, 0, []);
  }

  /** Text without a comma at depth 0 is read into the current piece, moving the depth by its nesting. */
  lemma {:induction false} SplitFromSkips(a: string, r: string, d: int, cur: string)
    requires TopCommaFree(a, d)
    ensures SplitFrom(a + r, d, cur) == SplitFrom(r, d + Nesting(a), cur + a)
    decreases |a|
  {
    if a == [] {
      assert a + r == r && cur + a == cur;
    } else {
      var c := a[0];
      var a' := a[1..];
      assert (a + r)[0] == c && (a + r)[1..] == a' + r;
      assert a[..0] == [];
      var d' := d + Delta(c);
      assert TopCommaFree(a', d') by {
        forall i | 0 <= i < |a'| && a'[i] == ','
          ensures d' + Nesting(a'[..i]) != 0
        {
          assert a[i + 1] == ',';
          assert a[..i + 1][1..] == a'[..i];
        }
      }
      SplitFromSkips(a', r, d', cur + [c]);
      assert cur + [c] + a' == cur + a;
    }
  }

  /** Reading a comma-free prefix `a` of nesting 0 leaves `a` as the current piece. */
  lemma SplitReadsPrefix(a: string, r: string)
    requires TopCommaFree(a, 0) && Nesting(a) == 0
    ensures SplitFrom(a + r, 0, []) == SplitFrom(r, 0, a)
  {
    SplitFromSkips(a, r, 0, []);
    assert [] + a == a;
  }

  /** A comma at depth 0 closes the current piece. */
  lemma SplitAtComma(a: string, b: string)
    ensures SplitFrom([','] + b, 0, a) == [Trim(a)] + SplitFrom(b, 0, [])
  {
    var cb := [','] + b;
    assert cb[0] == ',' && cb[1..] == b;
  }

  /** The first comma at depth 0 ends the first piece; the rest is split afresh. */
  lemma SplitAtTopComma(a: string, b: string)
    requires TopCommaFree(a, 0) && Nesting(a) == 0
    ensures SplitTopLevel(a + "," + b) == [Trim(a)] + SplitTopLevel(b)
  {
    assert a + "," + b == a + ([','] + b);
    SplitReadsPrefix(a, [','] + b);
    SplitAtComma(a, b);
  }

  /** At the end of the text, the current piece is emitted unless it is blank. */
  lemma SplitAtEnd(d: int, cur: string)
    ensures SplitFrom([], d, cur) == if Trim(cur) == [] then [] else [Trim(cur)]
  {
  }

  /** Text without a comma at depth 0 is one piece, or none when it is blank. */
  lemma SplitWithoutTopComma(s: string)
    requires TopCommaFree(s, 0)
    ensures SplitTopLevel(s) == if Trim(s) == [] then [] else [Trim(s)]
  {
    SplitReadsAll(s);
    SplitAtEnd(Nesting(s), s);
  }

  lemma SplitReadsAll(s: string)
    requires TopCommaFree(s, 0)
    ensures SplitTopLevel(s) == SplitFrom([], Nesting(s), s)
  {
    var e: string := [];
    SplitFromSkips(s, e, 0, e);
    assert s + e == s;
    assert e + s == s;
  }

  /** Nesting depth of text without angle brackets is zero. */
  lemma {:induction false} NestingFlat(s: string)
    requires '<' !in s && '>' !in s
    ensures Nesting(s) == 0
  {
    if s != [] {
      assert s[1..] <= s[1..];
      assert forall c | c in s[1..] :: c in s;
      NestingFlat(s[1..]);
    }
  }

  /** Nesting adds up over concatenation. */
  lemma {:induction false} NestingAppend(a: string, b: string)
    ensures Nesting(a + b) == Nesting(a) + Nesting(b)
  {
    if a == [] {
      assert a + b == b;
    } else {
      assert (a + b)[0] == a[0] && (a + b)[1..] == a[1..] + b;
      NestingAppend(a[1..], b);
    }
  }

  /** Text without a comma has no comma at depth 0. */
  lemma CommaFree(s: string, d: int)
    requires ',' !in s
    ensures TopCommaFree(s, d)
  {
  }

  /** A two-argument example with a nested comma: only the outer comma splits. */
  lemma SplitExample()
    ensures SplitTopLevel("String, List<A, B>") == ["String", "List<A, B>"]
  {
    var a := "String";
    var b := " List<A, B>";
    assert "String, List<A, B>" == a + "," + b;
    ExampleFirstPiece();
    SplitAtTopComma(a, b);
    ExampleSecondPiece();
    SplitWithoutTopComma(b);
  }

  lemma ExampleFirstPiece()
    ensures TopCommaFree("String", 0) && Nesting("String") == 0 && Trim("String") == "String"
  {
    NestingFlat("String");
    TrimClean("String");
  }

  lemma ExampleSecondPiece()
    ensures TopCommaFree(" List<A, B>", 0) && Trim(" List<A, B>") == "List<A, B>"
  {
    var b := " List<A, B>";
    forall i | 0 <= i < |b| && b[i] == ','
      ensures Nesting(b[..i]) != 0
    {
      assert i == 7;
      assert b[..7] == " List" + "<A";
      NestingAppend(" List", "<A");
      NestingFlat(" List");
      assert "<A"[1..] == "A";
      NestingFlat("A");
    }
    assert b == " " + "List<A, B>";
    TrimStartAppend(" ", "List<A, B>");
    TrimClean("List<A, B>");
  }

  // ---------------------------------------------------------------------------
  // The generic-type pattern `^([A-Za-z0-9_]+)<(.+)>$`

  /** The length of the longest prefix of word characters. */
  function WordPrefix(s: string): (n: nat)
    ensures n <= |s|
    ensures forall i | 0 <= i < n :: IsWordChar(s[i])
    ensures n < |s| ==> !IsWordChar(s[n])
  {
    if s != [] && IsWordChar(s[0]) then 1 + WordPrefix(s[1..]) else 0
  }

  lemma {:induction false} WordPrefixOf(c: string, rest: string)
    requires forall i | 0 <= i < |c| :: IsWordChar(c[i])
    requires rest != [] && !IsWordChar(rest[0])
    ensures WordPrefix(c + rest) == |c|
  {
    if c != [] {
      assert (c + rest)[1..] == c[1..] + rest;
      WordPrefixOf(c[1..], rest);
    } else {
      assert c + rest == rest;
    }
  }

  predicate NoLineTerminator(s: string) {
    forall i | 0 <= i < |s| :: !IsLineTerminator(s[i])
  }

  /** A generic type: the container name and the text between the outer angle brackets. */
  datatype Generic = Generic(container: string, inner: string)

  /** The match of `^([A-Za-z0-9_]+)<(.+)>$`, where `.` stops at line terminators. */
  function MatchGeneric(t: string): (r: Option<Generic>)
    ensures r.Some? ==> |r.value.inner| < |t| && '<' in t
  {
    var n := WordPrefix(t);
    if 0 < n && n + 2 < |t| && t[n] == '<' && t[|t| - 1] == '>' && NoLineTerminator(t[n + 1..|t| - 1])
    then Some(Generic(t[..n], t[n + 1..|t| - 1]))
    else None
  }

  predicate IsWord(c: string) {
    c != [] && forall i | 0 <= i < |c| :: IsWordChar(c[i])
  }

  /** `Name<inner>` matches the pattern with exactly that name and inner text. */
  lemma MatchGenericOf(c: string, x: string)
    requires IsWord(c) && x != [] && NoLineTerminator(x)
    ensures MatchGeneric(c + "<" + x + ">") == Some(Generic(c, x))
  {
    var t := c + "<" + x + ">";
    assert t == c + (['<'] + x + ">");
    WordPrefixOf(c, ['<'] + x + ">");
    assert t[..|c|] == c;
    assert t[|c| + 1..|t| - 1] == x;
  }

  // ---------------------------------------------------------------------------
  // convertJavaTypeToTS

  /** `convertJavaTypeToTS`: the TypeScript type written for a Java type (which is trimmed first). */
  function MapType(javaType: string): string
    decreases |javaType|, 1
  {
    MapTrimmed(Trim(javaType))
  }

  /** The mapping of a trimmed type: arrays first, then generics, then the table, else unchanged. */
  function MapTrimmed(t: string): string
    decreases |t|, 0
  {
    if EndsWith(t, "[]") then
      MapType(t[..|t| - 2]) + "[]"
    else if '<' in t && MatchGeneric(t).Some? then
      MapGeneric(MatchGeneric(t).value.container, Trim(MatchGeneric(t).value.inner))
    else if t in TypeTable then
      TypeTable[t]
    else
      t
  }

  /** The mapping of `container<inner>`, given the trimmed inner text. */
  function MapGeneric(container: string, inner: string): string
    decreases |inner|, 2
  {
    if container in CollectionNames then
      MapType(inner) + "[]"
    else if container in MapNames && |SplitTopLevel(inner)| >= 2 then
      var types := SplitTopLevel(inner);
      SplitTopLevelLength(inner);
      assert types[0] in types && types[1] in types;
      "{ [key: " + MapType(types[0]) + "]: " + MapType(types[1]) + " }"
    else if container == "Optional" then
      MapType(inner) + " | undefined"
    else
      container + "<" + MapType(inner) + ">"
  }

  /** Surrounding white space never matters. */
  lemma MapTypeTrim(s: string)
    ensures MapType(Trim(s)) == MapType(s)
  {
    TrimIdempotent(s);
  }

  /** Leading white space never matters. */
  lemma MapTypeTrimStart(s: string)
    ensures MapType(TrimStart(s)) == MapType(s)
  {
    TrimAfterTrimStart(s);
  }

  /** A type that is its own trim goes straight to `MapTrimmed`. */
  lemma MapTypeOfTrimmed(t: string)
    requires Trim(t) == t
    ensures MapType(t) == MapTrimmed(t)
  {
  }

  /** A word (`\w+`) is its own trim, does not end in `[]` and is not a generic. */
  lemma WordShape(t: string)
    requires IsWord(t)
    ensures Trim(t) == t && !EndsWith(t, "[]") && MatchGeneric(t).None?
  {
    assert IsWordChar(t[0]) && IsWordChar(t[|t| - 1]);
    TrimClean(t);
    assert WordPrefix(t) == |t|;
  }

  /** A word becomes its table entry when it has one and stays as it is otherwise. */
  lemma MapTypeWord(t: string)
    requires IsWord(t)
    ensures MapType(t) == if t in TypeTable then TypeTable[t] else t
  {
    WordShape(t);
    MapTypeOfTrimmed(t);
  }

  /** Every key of the table is a word. */
  lemma TableKeysAreWords()
    ensures forall k | k in TypeTable :: IsWord(k)
  {
  }

  /** Every built-in Java type becomes its table entry. */
  lemma MapTypeTableKeys()
    ensures forall k | k in TypeTable :: MapType(k) == TypeTable[k]
  {
    TableKeysAreWords();
    forall k | k in TypeTable
      ensures MapType(k) == TypeTable[k]
    {
      MapTypeWord(k);
    }
  }

  /** A trimmed name that is not a table key, not an array and not a generic is kept as it is. */
  lemma MapTypeKeepsCustomNames(t: string)
    requires Trim(t) == t && t !in TypeTable && !EndsWith(t, "[]") && MatchGeneric(t).None?
    ensures MapType(t) == t
  {
    MapTypeOfTrimmed(t);
  }

  lemma MapTrimmedArray(t: string)
    requires EndsWith(t, "[]")
    ensures MapTrimmed(t) == MapType(t[..|t| - 2]) + "[]"
  {
  }

  /** `T[]` becomes the mapping of `T` followed by `[]`. */
  lemma MapTypeArray(e: string)
    ensures MapType(e + "[]") == MapType(e) + "[]"
  {
    TrimWithSuffix(e, "[]");
    var t := Trim(e + "[]");
    assert t == TrimStart(e) + "[]";
    assert EndsWith(t, "[]");
    assert t[..|t| - 2] == TrimStart(e);
    MapTrimmedArray(t);
    MapTypeTrimStart(e);
  }

  /** `Name<x>` is its own trim, is not an array and matches the generic pattern. */
  lemma GenericShape(c: string, x: string)
    requires IsWord(c) && x != [] && NoLineTerminator(x)
    ensures Trim(c + "<" + x + ">") == c + "<" + x + ">"
    ensures !EndsWith(c + "<" + x + ">", "[]")
    ensures MatchGeneric(c + "<" + x + ">") == Some(Generic(c, x))
  {
    var t := c + "<" + x + ">";
    assert t[0] == c[0] && t[|t| - 1] == '>';
    assert !IsJsSpace(c[0]) by { assert IsWordChar(c[0]); }
    TrimClean(t);
    MatchGenericOf(c, x);
  }

  lemma MapTrimmedGeneric(t: string)
    requires !EndsWith(t, "[]") && MatchGeneric(t).Some?
    ensures MapTrimmed(t) == MapGeneric(MatchGeneric(t).value.container, Trim(MatchGeneric(t).value.inner))
  {
  }

  /** `Name<x>` is mapped by the generic rules on `Name` and the trimmed `x`. */
  lemma MapTypeGeneric(c: string, x: string)
    requires IsWord(c) && x != [] && NoLineTerminator(x)
    ensures MapType(c + "<" + x + ">") == MapGeneric(c, Trim(x))
  {
    var t := c + "<" + x + ">";
    GenericShape(c, x);
    MapTypeOfTrimmed(t);
    MapTrimmedGeneric(t);
  }

  /** `List<X>`, `ArrayList<X>`, `Set<X>` and `Collection<X>` become the mapping of `X` followed by `[]`. */
  lemma MapTypeCollection(c: string, x: string)
    requires c in CollectionNames && x != [] && NoLineTerminator(x)
    ensures MapType(c + "<" + x + ">") == MapType(x) + "[]"
  {
    assert IsWord(c);
    MapTypeGeneric(c, x);
    MapTypeTrim(x);
  }

  /** `Optional<X>` becomes the mapping of `X` united with `undefined`. */
  lemma MapTypeOptional(x: string)
    requires x != [] && NoLineTerminator(x)
    ensures MapType("Optional<" + x + ">") == MapType(x) + " | undefined"
  {
    assert "Optional<" + x + ">" == "Optional" + "<" + x + ">";
    assert IsWord("Optional");
    MapTypeGeneric("Optional", x);
    MapGenericOptional(Trim(x));
    MapTypeTrim(x);
  }

  lemma MapGenericOptional(inner: string)
    ensures MapGeneric("Optional", inner) == MapType(inner) + " | undefined"
  {
    assert "Optional" !in CollectionNames && "Optional" !in MapNames;
  }

  lemma MapGenericMap(c: string, inner: string)
    requires c in MapNames && |SplitTopLevel(inner)| >= 2
    ensures MapGeneric(c, inner)
      == "{ [key: " + MapType(SplitTopLevel(inner)[0]) + "]: " + MapType(SplitTopLevel(inner)[1]) + " }"
  {
  }

  /** The inner text `k,v` of a map type is its own trim. */
  lemma PairTrimmed(k: string, v: string)
    requires k == [] || !IsJsSpace(k[0])
    requires v != [] && !IsJsSpace(v[|v| - 1])
    ensures Trim(k + "," + v) == k + "," + v
  {
    var x := k + "," + v;
    assert x[|x| - 1] == v[|v| - 1];
    if k == [] {
      assert x[0] == ',';
    } else {
      assert x[0] == k[0];
    }
    TrimClean(x);
  }

  lemma PairNoLineTerminator(k: string, v: string)
    requires NoLineTerminator(k) && NoLineTerminator(v)
    ensures NoLineTerminator(k + "," + v)
  {
    var x := k + "," + v;
    forall i | 0 <= i < |x| ensures !IsLineTerminator(x[i]) {
      if i < |k| { assert x[i] == k[i]; }
      else if i > |k| { assert x[i] == v[i - |k| - 1]; }
    }
  }

  /** A map type's inner text `k,v` splits into the trimmed `k` and `v`. */
  lemma PairSplit(k: string, v: string)
    requires TopCommaFree(k, 0) && Nesting(k) == 0 && TopCommaFree(v, 0)
    requires v != [] && !IsJsSpace(v[|v| - 1])
    ensures SplitTopLevel(k + "," + v) == [Trim(k), Trim(v)]
  {
    SplitAtTopComma(k, v);
    SplitWithoutTopComma(v);
    TrimNonBlank(v);
  }

  /**
   * `Map<K, V>` and `HashMap<K, V>` become an index signature keyed by the
   * mapping of `K` and valued by the mapping of `V`, when `K` and `V` hold no
   * comma outside angle brackets and `V` is not blank.
   */
  lemma MapTypeMap(c: string, k: string, v: string)
    requires c in MapNames
    requires NoLineTerminator(k) && NoLineTerminator(v)
    requires TopCommaFree(k, 0) && Nesting(k) == 0 && TopCommaFree(v, 0)
    requires k == [] || !IsJsSpace(k[0])
    requires v != [] && !IsJsSpace(v[|v| - 1])
    ensures MapType(c + "<" + k + "," + v + ">") == "{ [key: " + MapType(k) + "]: " + MapType(v) + " }"
  {
    var x := k + "," + v;
    assert c + "<" + k + "," + v + ">" == c + "<" + x + ">";
    assert IsWord(c);
    PairNoLineTerminator(k, v);
    MapTypeGeneric(c, x);
    PairTrimmed(k, v);
    PairSplit(k, v);
    MapGenericMap(c, x);
    MapTypeTrim(k);
    MapTypeTrim(v);
  }

  /**
   * Any other generic, and a `Map` or `HashMap` with fewer than two
   * arguments, keeps its name and gets its argument text mapped as one type.
   */
  lemma MapTypeOtherGeneric(c: string, x: string)
    requires IsWord(c) && x != [] && NoLineTerminator(x)
    requires c !in CollectionNames && c != "Optional"
    requires c in MapNames ==> |SplitTopLevel(Trim(x))| < 2
    ensures MapType(c + "<" + x + ">") == c + "<" + MapType(x) + ">"
  {
    MapTypeGeneric(c, x);
    MapTypeTrim(x);
  }

  /** The lookup `javaToTsTypeMap[t] || t` the interface emitter applies to an already mapped type. */
  function Lookup(t: string): string {
    if t in TypeTable then TypeTable[t] else t
  }

  /** A text holding a non-word character is not a key of the table. */
  lemma NotAKey(s: string, i: int)
    requires 0 <= i < |s| && !IsWordChar(s[i])
    ensures s !in TypeTable
  {
    TableKeysAreWords();
  }

  /** Looking a table value up again gives the value back (only `Date` is both a key and a value). */
  lemma LookupOfValues()
    ensures forall k | k in TypeTable :: Lookup(TypeTable[k]) == TypeTable[k]
  {
  }

  /** The emitter's second lookup never changes a type produced by `MapType`. */
  lemma LookupAfterMapType(x: string)
    ensures Lookup(MapType(x)) == MapType(x)
  {
    var t := Trim(x);
    var r := MapType(x);
    assert r == MapTrimmed(t);
    if EndsWith(t, "[]") {
      NotAKey(r, |r| - 1);
    } else if '<' in t && MatchGeneric(t).Some? {
      var c := MatchGeneric(t).value.container;
      var inner := Trim(MatchGeneric(t).value.inner);
      assert r == MapGeneric(c, inner);
      if c in CollectionNames {
        NotAKey(r, |r| - 1);
      } else if c in MapNames && |SplitTopLevel(inner)| >= 2 {
        NotAKey(r, 0);
      } else if c == "Optional" {
        NotAKey(r, |MapType(inner)|);
      } else {
        NotAKey(r, |r| - 1);
      }
    } else if t in TypeTable {
      LookupOfValues();
    }
  }
}
