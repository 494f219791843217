/**
 * The converter object: its two memo tables, the string hash that keys the
 * result cache, and the entry points `convert`, `convertSimple`,
 * `convertToInterface` and `generateSmartImports`.
 */
module Converter {
  import opened Options
  import opened Text
  import opened Sequences
  import opened TypeMapper
  import opened Dependencies
  import opened Imports
  import opened Fields
  import opened Declarations
  import opened Emitter

  // ---------------------------------------------------------------------------
  // generateCacheKey

  const TwoTo32: int := 0x1_0000_0000
  const TwoTo31: int := 0x8000_0000

  /** ECMAScript ToInt32: the integer congruent to `x` modulo 2^32 in [-2^31, 2^31). */
  function ToInt32(x: int): (r: int)
    ensures -TwoTo31 <= r < TwoTo31
  {
    var m := x % TwoTo32;
    if m >= TwoTo31 then m - TwoTo32 else m
  }

  /** `ToInt32` only moves its argument by a multiple of 2^32. */
  lemma ToInt32Offset(x: int) returns (k: int)
    ensures ToInt32(x) == x + k * TwoTo32
  {
    k := -(x / TwoTo32);
    if x % TwoTo32 >= TwoTo31 {
      k := k - 1;
    }
  }

  /** Adding a multiple of 2^32 does not change `ToInt32`. */
  lemma ToInt32Periodic(x: int, k: int)
    ensures ToInt32(x + k * TwoTo32) == ToInt32(x)
  {
    var q := x / TwoTo32;
    var m := x % TwoTo32;
    assert x + k * TwoTo32 == (q + k) * TwoTo32 + m;
  }

  /** The string hash: `h = 31 * h + c` per UTF-16 unit, kept in 32 bits after every step. */
  function HashCode(s: string): (h: int)
    ensures -TwoTo31 <= h < TwoTo31
  {
    if s == [] then 0 else ToInt32(31 * HashCode(s[..|s| - 1]) + s[|s| - 1] as int)
  }

  /** One step as the source writes it, `((h << 5) - h) + c` and then `& h`, is one step of the hash. */
  lemma ShiftStep(h: int, c: int)
    ensures ToInt32(ToInt32(h * 32) - h + c) == ToInt32(31 * h + c)
  {
    var k := ToInt32Offset(h * 32);
    assert ToInt32(h * 32) - h + c == 31 * h + c + k * TwoTo32;
    ToInt32Periodic(31 * h + c, k);
  }

  /** Texts with equal hashes keep equal hashes when the same text is appended to both. */
  lemma {:induction false} HashExtends(p: string, q: string, w: string)
    requires HashCode(p) == HashCode(q)
    ensures HashCode(p + w) == HashCode(q + w)
    decreases |w|
  {
    if w == [] {
      assert p + w == p && q + w == q;
    } else {
      var w' := w[..|w| - 1];
      HashExtends(p, q, w');
      assert (p + w)[..|p + w| - 1] == p + w';
      assert (q + w)[..|q + w| - 1] == q + w';
    }
  }

  /** Two characters `ab` and `cd` with `31a + b == 31c + d` hash alike. */
  lemma PairCollision(a: char, b: char, c: char, d: char)
    requires 31 * (a as int) + b as int == 31 * (c as int) + d as int
    ensures HashCode([a, b]) == HashCode([c, d])
  {
    OneCharHash(a);
    OneCharHash(c);
    assert [a, b][..1] == [a];
    assert [c, d][..1] == [c];
  }

  /** A single character hashes to its code. */
  lemma OneCharHash(a: char)
    ensures HashCode([a]) == a as int
  {
    assert [a][..0] == [];
  }

  /**
   * Different sources share a cache key: every text beginning with `Aa`
   * hashes like the same text beginning with `BB`, so the second of the two
   * conversions is answered with the first one's interface.
   */
  lemma CacheKeyCollision(w: string)
    ensures HashCode("Aa" + w) == HashCode("BB" + w)
  {
    PairCollision('A', 'a', 'B', 'B');
    assert "Aa" == ['A', 'a'] && "BB" == ['B', 'B'];
    HashExtends("Aa", "BB", w);
  }

  // ---------------------------------------------------------------------------
  // The matches each path reads

  /** The first declaration match of the fast path: whether it is an enum, and its name. */
  datatype Decl = Decl(isEnum: bool, name: string)

  /** What the fast path's regular expressions find in a source. */
  datatype SimpleSource = SimpleSource(
    decl: Option<Decl>,
    extendsName: Option<string>,
    fields: seq<FieldMatch>,
    enumBody: Option<seq<EnumMatch>>)

  /**
   * What the full path's regular expressions find in a source: `candidates`
   * and `extendsName` come from the text with comments removed, `annotated`
   * and `plain` from the raw text.
   */
  datatype FullSource = FullSource(
    candidates: seq<string>,
    extendsName: Option<string>,
    annotated: seq<AnnotatedField>,
    plain: seq<PlainField>)

  /** `currentFilePath || ''`. */
  function PathText(currentFilePath: Option<string>): string {
    if Truthy(currentFilePath) then currentFilePath.value else ""
  }

  /** The types of the properties, in order. */
  function TypesOf(props: seq<Property>): (r: seq<string>)
    ensures |r| == |props|
    ensures forall i | 0 <= i < |props| :: r[i] == props[i].typ
  {
    if props == [] then [] else TypesOf(props[..|props| - 1]) + [props[|props| - 1].typ]
  }

  /** The dependencies of the full path: the property types' names, then the supertype unless it is built in. */
  function InterfaceDeps(src: FullSource): seq<string> {
    var deps := Distinct(AllCandidates(TypesOf(ExtractedProperties(src.annotated, src.plain))));
    var ext := ExtendsClass(src.extendsName);
    if ext.Some? && !IsBuiltInType(ext.value) then deps + [ext.value] else deps
  }

  /** The import statements `generateSmartImports` returns against a given memo table. */
  function ImportsFrom(importCache: map<string, seq<string>>, deps: seq<string>, currentFilePath: Option<string>): seq<string> {
    var key := ImportKey(deps, currentFilePath);
    if key in importCache then importCache[key] else ImportLines(deps, currentFilePath)
  }

  /** The statements of the full path: none without dependencies, else those of the distinct dependencies. */
  function InterfaceImports(importCache: map<string, seq<string>>, src: FullSource, currentFilePath: Option<string>): seq<string> {
    var deps := InterfaceDeps(src);
    if |deps| > 0 then ImportsFrom(importCache, Distinct(deps), currentFilePath) else []
  }

  /** The text of `convertToInterface`. */
  function FullText(importCache: map<string, seq<string>>, src: FullSource, currentFilePath: Option<string>): string {
    InterfaceText(
      InterfaceImports(importCache, src, currentFilePath),
      ClassNameOf(src.candidates),
      ExtendsClass(src.extendsName),
      ExtractedProperties(src.annotated, src.plain))
  }

  /** The memo table after `generateSmartImports`: the computed statements recorded under their key. */
  function AfterImports(importCache: map<string, seq<string>>, deps: seq<string>, currentFilePath: Option<string>): map<string, seq<string>> {
    var key := ImportKey(deps, currentFilePath);
    if key in importCache then importCache else importCache[key := ImportLines(deps, currentFilePath)]
  }

  /** The memo table after `convertToInterface`. */
  function AfterInterface(importCache: map<string, seq<string>>, src: FullSource, currentFilePath: Option<string>): map<string, seq<string>> {
    var deps := InterfaceDeps(src);
    if |deps| > 0 then AfterImports(importCache, Distinct(deps), currentFilePath) else importCache
  }

  /**
   * A class-shaped supertype reaches the full path's interface: it is named
   * after `extends` in the header and, unless built in, it is the last
   * dependency, so on a memo miss its import is among the statements.
   */
  lemma SupertypeReachesInterface(importCache: map<string, seq<string>>, src: FullSource, currentFilePath: Option<string>, n: string)
    requires src.extendsName == Some(n) && IsClassName(n)
    ensures FullText(importCache, src, currentFilePath)
      == Header(ImportBlock(InterfaceImports(importCache, src, currentFilePath)), ClassNameOf(src.candidates), " extends " + n)
         + PropertyLines(ExtractedProperties(src.annotated, src.plain)) + "}\n"
    ensures !IsBuiltInType(n) ==> |InterfaceDeps(src)| > 0 && InterfaceDeps(src)[|InterfaceDeps(src)| - 1] == n
    ensures !IsBuiltInType(n) && ImportKey(Distinct(InterfaceDeps(src)), currentFilePath) !in importCache ==>
      ImportLine(n, ImportPath(n, currentFilePath)) in InterfaceImports(importCache, src, currentFilePath)
  {
    if !IsBuiltInType(n) && ImportKey(Distinct(InterfaceDeps(src)), currentFilePath) !in importCache {
      var deps := InterfaceDeps(src);
      var ds := Distinct(deps);
      assert n in deps;
      DistinctElements(deps);
      var cs := CustomTypes(ds);
      assert n in cs;
      var i :| 0 <= i < |cs| && cs[i] == n;
      ImportLinesShape(ds, currentFilePath);
      assert ImportLines(ds, currentFilePath)[i] == ImportLine(n, ImportPath(n, currentFilePath));
    }
  }

  /**
   * A missing or refused supertype leaves no trace: no `extends` clause, and
   * the dependencies are those of the properties alone.
   */
  lemma RefusedSupertypeDropped(importCache: map<string, seq<string>>, src: FullSource, currentFilePath: Option<string>)
    requires src.extendsName.None? || !IsClassName(src.extendsName.value)
    ensures FullText(importCache, src, currentFilePath)
      == Header(ImportBlock(InterfaceImports(importCache, src, currentFilePath)), ClassNameOf(src.candidates), "")
         + PropertyLines(ExtractedProperties(src.annotated, src.plain)) + "}\n"
    ensures InterfaceDeps(src) == Distinct(AllCandidates(TypesOf(ExtractedProperties(src.annotated, src.plain))))
  {
  }

  // ---------------------------------------------------------------------------
  // The fast path as a value

  /** The dependencies of the fast path: the fields' names, then the supertype unless it is built in. */
  function SimpleDeps(src: SimpleSource, currentFilePath: Option<string>): seq<string> {
    var deps := if Truthy(currentFilePath) then Distinct(SimpleDepNames(SimpleAccepted(src.fields))) else [];
    if src.extendsName.Some? && !IsBuiltInType(src.extendsName.value) then Distinct(deps + [src.extendsName.value]) else deps
  }

  /** The import block of the fast path: only with a location hint and at least one dependency. */
  function SimpleImports(importCache: map<string, seq<string>>, src: SimpleSource, currentFilePath: Option<string>): string {
    var deps := SimpleDeps(src, currentFilePath);
    if Truthy(currentFilePath) && |deps| > 0 then ImportBlock(ImportsFrom(importCache, deps, currentFilePath)) else ""
  }

  /** The memo table after `convertSimple`. */
  function AfterSimple(importCache: map<string, seq<string>>, src: SimpleSource, currentFilePath: Option<string>): map<string, seq<string>> {
    var deps := SimpleDeps(src, currentFilePath);
    if Truthy(currentFilePath) && |deps| > 0 then AfterImports(importCache, deps, currentFilePath) else importCache
  }

  /** Whether the fast path reaches the field loop: not skipped, a declaration found, a valid class (not enum) name. */
  predicate SimpleReachesFields(javaCode: string, src: SimpleSource) {
    |Trim(javaCode)| >= 20 && !QuickSkip(javaCode) && src.decl.Some?
    && ValidDeclName(src.decl.value.name) && !src.decl.value.isEnum
  }

  /** The result of `convertSimple`. */
  function SimpleResult(importCache: map<string, seq<string>>, javaCode: string, src: SimpleSource, currentFilePath: Option<string>): Option<string> {
    if |Trim(javaCode)| < 20 then None
    else if QuickSkip(javaCode) then Some("// Skipped: Not suitable for interface conversion\n")
    else if src.decl.None? then Some("// No valid class or enum found\n")
    else
      var keyword := if src.decl.value.isEnum then "enum" else "class";
      var className := src.decl.value.name;
      if !ValidDeclName(className) then Some("// Invalid " + keyword + " name: " + className + "\n")
      else if src.decl.value.isEnum then Some(EnumText(className, src.enumBody))
      else
        var extendsClause := if src.extendsName.Some? && IsClassName(src.extendsName.value) then " extends " + src.extendsName.value else "";
        Some(SimpleInterfaceText(
          SimpleImports(importCache, src, currentFilePath), className, extendsClause,
          SimpleLines(SimpleAccepted(src.fields))))
  }

  // ---------------------------------------------------------------------------
  // The converter object

  class JavaToTypeScriptConverter {
    /** `cache`: results of `convert` by the hash of source and location. */
    var cache: map<int, string>
    /** `importCache`: import statements by dependency list and location. */
    var importCache: map<string, seq<string>>

    /** Only results whose trimmed text is longer than 20 characters are ever cached. */
    ghost predicate Valid()
      reads this
    {
      forall k | k in cache :: |Trim(cache[k])| > 20
    }

    constructor()
      ensures Valid()
      ensures cache == map[] && importCache == map[]
    {
      cache := map[];
      importCache := map[];
    }

    /** `generateCacheKey`: the 32-bit string hash. */
    method GenerateCacheKey(javaCode: string) returns (hash: int)
      ensures hash == HashCode(javaCode)
      ensures -TwoTo31 <= hash < TwoTo31
    {
      hash := 0;
      for i := 0 to |javaCode|
        invariant hash == HashCode(javaCode[..i])
      {
        var code := javaCode[i] as int;
        assert javaCode[..i + 1][..i] == javaCode[..i];
        ShiftStep(hash, code);
        hash := (ToInt32(hash * 32) - hash) + code;
        hash := ToInt32(hash);
      }
      assert javaCode[..|javaCode|] == javaCode;
    }

    /**
     * `generateSmartImports`: a memo hit returns the stored statements;
     * otherwise one statement per dependency that is not built in, stored
     * under the key.
     */
    method GenerateSmartImports(dependencies: seq<string>, currentFilePath: Option<string>) returns (imports: seq<string>)
      modifies this
      ensures imports == ImportsFrom(old(importCache), dependencies, currentFilePath)
      ensures importCache == AfterImports(old(importCache), dependencies, currentFilePath)
      ensures cache == old(cache)
    {
      var cacheKey := Join(dependencies, ",") + "_" + (match currentFilePath case None => "null" case Some(p) => p);
      if cacheKey in importCache {
        return importCache[cacheKey];
      }
      imports := [];
      for i := 0 to |dependencies|
        invariant imports == ImportLines(dependencies[..i], currentFilePath)
        invariant cache == old(cache) && importCache == old(importCache)
      {
        var dep := dependencies[i];
        assert dependencies[..i + 1][..i] == dependencies[..i];
        if IsBuiltInType(dep) {
          continue;
        }
        var importPath;
        if dep in Registry {
          var targetPath := Registry[dep];
          if currentFilePath.Some? && currentFilePath.value != "" {
            importPath := CalculateRelativePath(currentFilePath, targetPath);
          } else {
            importPath := "./" + dep;
          }
        } else {
          importPath := "./" + dep;
        }
        imports := imports + ["import { " + dep + " } from '" + importPath + "';"];
      }
      assert dependencies[..|dependencies|] == dependencies;
      importCache := importCache[cacheKey := imports];
    }

    /** `convertToInterface`: name, supertype, properties, dependencies, imports, then the text. */
    method ConvertToInterface(src: FullSource, currentFilePath: Option<string>) returns (interfaceCode: string)
      modifies this
      ensures interfaceCode == FullText(old(importCache), src, currentFilePath)
      ensures importCache == AfterInterface(old(importCache), src, currentFilePath)
      ensures cache == old(cache)
    {
      var className, extendsClass, properties, dependencies := InterfaceParts(src);
      var statements := [];
      if |dependencies| > 0 {
        var uniqueDeps := Distinct(dependencies);
        statements := GenerateSmartImports(uniqueDeps, currentFilePath);
      }
      interfaceCode := EmitInterface(statements, className, extendsClass, properties);
    }

    /**
     * `convert`: nothing for a source shorter than 20 characters once
     * trimmed; the cached text on a hit; otherwise the interface, which is
     * always long enough to be cached.
     */
    method Convert(javaCode: string, src: FullSource, currentFilePath: Option<string>) returns (r: Option<string>)
      requires Valid()
      modifies this
      ensures Valid()
      ensures |Trim(javaCode)| < 20 ==> r.None? && cache == old(cache) && importCache == old(importCache)
      ensures |Trim(javaCode)| >= 20 && HashCode(javaCode + PathText(currentFilePath)) in old(cache) ==>
        r == Some(old(cache)[HashCode(javaCode + PathText(currentFilePath))])
        && cache == old(cache) && importCache == old(importCache)
      ensures |Trim(javaCode)| >= 20 && HashCode(javaCode + PathText(currentFilePath)) !in old(cache) ==>
        r == Some(FullText(old(importCache), src, currentFilePath))
        && cache == old(cache)[HashCode(javaCode + PathText(currentFilePath)) := r.value]
        && importCache == AfterInterface(old(importCache), src, currentFilePath)
    {
      if |Trim(javaCode)| < 20 {
        return None;
      }
      var cacheKey := GenerateCacheKey(javaCode + (if currentFilePath.Some? && currentFilePath.value != "" then currentFilePath.value else ""));
      if cacheKey in cache {
        return Some(cache[cacheKey]);
      }
      var tsInterface := ConvertToInterface(src, currentFilePath);
      FullTextLong(old(importCache), src, currentFilePath);
      if |Trim(tsInterface)| > 20 {
        cache := cache[cacheKey := tsInterface];
      }
      return Some(tsInterface);
    }

    /** `convertSimple`: the fast path, which never touches the result cache. */
    method ConvertSimple(javaCode: string, src: SimpleSource, currentFilePath: Option<string>) returns (r: Option<string>)
      modifies this
      ensures r == SimpleResult(old(importCache), javaCode, src, currentFilePath)
      ensures importCache == (if SimpleReachesFields(javaCode, src) then AfterSimple(old(importCache), src, currentFilePath) else old(importCache))
      ensures cache == old(cache)
    {
      if |Trim(javaCode)| < 20 {
        return None;
      }
      if Contains(javaCode, "public static void main") || Contains(javaCode, "@Test") || Contains(javaCode, "extends Exception") {
        return Some("// Skipped: Not suitable for interface conversion\n");
      }
      if src.decl.None? {
        return Some("// No valid class or enum found\n");
      }
      var typeKeyword := if src.decl.value.isEnum then "enum" else "class";
      var className := src.decl.value.name;
      if className in Blocklist || !IsClassName(className) {
        return Some("// Invalid " + typeKeyword + " name: " + className + "\n");
      }
      if typeKeyword == "enum" {
        var tsEnum := ConvertEnumToTypeScript(src.enumBody, className);
        return Some(tsEnum);
      }
      var extendsMatch := src.extendsName;
      var extendsClause := if extendsMatch.Some? && IsClassName(extendsMatch.value) then " extends " + extendsMatch.value else "";
      var properties, dependencies := SimpleFields(src.fields, currentFilePath);
      if extendsMatch.Some? && !IsBuiltInType(extendsMatch.value) {
        dependencies := Distinct(dependencies + [extendsMatch.value]);
      }
      var imports := "";
      if currentFilePath.Some? && currentFilePath.value != "" && |dependencies| > 0 {
        var importStatements := GenerateSmartImports(dependencies, currentFilePath);
        if |importStatements| > 0 {
          imports := Join(importStatements, "\n") + "\n\n";
        }
      }
      assert imports == SimpleImports(old(importCache), src, currentFilePath);
      var tsInterface := BuildSimpleInterface(imports, className, extendsClause, properties);
      return Some(tsInterface);
    }
  }

  /** The first half of `convertToInterface`: name, supertype, properties, and the dependencies with the supertype appended. */
  method InterfaceParts(src: FullSource)
    returns (className: string, extendsClass: Option<string>, properties: seq<Property>, dependencies: seq<string>)
    ensures className == ClassNameOf(src.candidates)
    ensures extendsClass == ExtendsClass(src.extendsName)
    ensures properties == ExtractedProperties(src.annotated, src.plain)
    ensures dependencies == InterfaceDeps(src)
  {
    className := ExtractClassName(src.candidates);
    extendsClass := ExtendsClass(src.extendsName);
    properties := ExtractProperties(src.annotated, src.plain);
    dependencies := FindDependencies(TypesOf(properties));
    if extendsClass.Some? && !IsBuiltInType(extendsClass.value) {
      dependencies := dependencies + [extendsClass.value];
    }
  }

  /** The closing part of `convertSimple`: header, the property text unless it is blank, closing brace. */
  method BuildSimpleInterface(imports: string, className: string, extendsClause: string, properties: string)
    returns (tsInterface: string)
    ensures tsInterface == SimpleInterfaceText(imports, className, extendsClause, properties)
  {
    tsInterface := imports + "export interface " + className + extendsClause + " {\n";
    if Trim(properties) != "" {
      tsInterface := tsInterface + properties;
    }
    tsInterface := tsInterface + "}\n";
  }

  // ---------------------------------------------------------------------------
  // Why every interface is cached

  /** A text with non-space characters at `p` and `q` keeps at least the span between them when trimmed. */
  lemma TrimSpan(s: string, p: nat, q: nat)
    requires p <= q < |s| && !IsJsSpace(s[p]) && !IsJsSpace(s[q])
    ensures |Trim(s)| >= q - p + 1
  {
    TrimStartSuffix(s);
    var t := TrimStart(s);
    var k := |s| - |t|;
    assert k <= p;
    assert t[q - k] == s[q];
    TrimEndPrefix(t);
    assert |TrimEnd(t)| > q - k;
  }

  /** The full path's interface always trims to more than 20 characters, so `convert` always caches it. */
  lemma FullTextLong(importCache: map<string, seq<string>>, src: FullSource, currentFilePath: Option<string>)
    ensures |Trim(FullText(importCache, src, currentFilePath))| > 20
  {
    var name := ClassNameOf(src.candidates);
    ClassNameSpec(src.candidates);
    var imports := ImportBlock(InterfaceImports(importCache, src, currentFilePath));
    var ext := ExtendsClause(ExtendsClass(src.extendsName));
    var lines := PropertyLines(ExtractedProperties(src.annotated, src.plain));
    InterfaceShape(imports, name, ext, lines);
  }

  /** Where the first and last non-space characters of an interface text sit. */
  lemma InterfaceShape(imports: string, name: string, ext: string, lines: string)
    requires |name| >= 2
    ensures |Trim(Header(imports, name, ext) + lines + "}\n")| > 20
  {
    var s := Header(imports, name, ext) + lines + "}\n";
    var p := |imports|;
    var q := |s| - 2;
    assert s[p] == 'e';
    assert s[q] == '}';
    TrimSpan(s, p, q);
  }
}
