/**
 * What happens to each field the regular expressions find: the fast path's
 * loop in `convertSimple` and the two passes of `extractProperties`, then
 * `removeDuplicateProperties`.
 *
 * The matching itself is not modelled: each pass receives the sequence of
 * matches its pattern would produce, as tuples of captured groups.
 */
module Fields {
  import opened Options
  import opened Text
  import opened Sequences
  import opened TypeMapper
  import opened Dependencies
  import opened Imports

  /** A match of the fast path's field pattern: optional `@JsonProperty` name, declared type, Java name. */
  datatype FieldMatch = FieldMatch(jsonName: Option<string>, javaType: string, fieldName: string)

  /** A match of the full path's `@JsonProperty` field pattern. */
  datatype AnnotatedField = AnnotatedField(jsonName: string, javaType: string, fieldName: string)

  /** A match of the full path's plain field pattern. */
  datatype PlainField = PlainField(javaType: string, fieldName: string)

  /** A property of the emitted interface. */
  datatype Property = Property(name: string, typ: string, isOptional: bool)

  /** A property together with the Java field name it came from. */
  datatype Entry = Entry(javaName: string, prop: Property)

  /** Wraps a name in double quotes. */
  function Quoted(s: string): string {
    "\"" + s + "\""
  }

  // ---------------------------------------------------------------------------
  // The fast path (convertSimple)

  /** The fast path keeps a field whose name is not `serialVersionUID` and matches `^[a-z][a-zA-Z0-9_]*$`. */
  predicate SimpleValid(m: FieldMatch) {
    m.fieldName != "serialVersionUID" && IsFieldName(m.fieldName)
  }

  function FieldNameOf(m: FieldMatch): string {
    m.fieldName
  }

  /** The matches the fast path turns into properties: the first valid match for each Java name. */
  function SimpleAccepted(ms: seq<FieldMatch>): seq<FieldMatch> {
    KeepFirst(Filter(ms, SimpleValid), FieldNameOf)
  }

  /** The fast path's property name: the `@JsonProperty` name when given, quoted only if it holds `@`, `-` or `.`. */
  function SimpleName(jsonName: Option<string>, fieldName: string): string {
    if jsonName.Some? && jsonName.value != [] then
      var j := jsonName.value;
      if '@' in j || '-' in j || '.' in j then Quoted(j) else j
    else fieldName
  }

  /** The TypeScript type of a match. */
  function SimpleType(m: FieldMatch): string {
    MapType(Trim(m.javaType))
  }

  /** One property line of the fast path. */
  function SimpleLine(m: FieldMatch): string {
    "  " + SimpleName(m.jsonName, m.fieldName) + "?: " + SimpleType(m) + ";\n"
  }

  /** The property lines of the accepted matches, in order. */
  function SimpleLines(acc: seq<FieldMatch>): string {
    if acc == [] then [] else SimpleLines(acc[..|acc| - 1]) + SimpleLine(acc[|acc| - 1])
  }

  /** The names collected for the accepted matches: from the mapped type, then from the Java type. */
  function SimpleDepNames(acc: seq<FieldMatch>): seq<string> {
    if acc == [] then []
    else
      var m := acc[|acc| - 1];
      SimpleDepNames(acc[..|acc| - 1]) + Names(SimpleType(m)) + Names(Trim(m.javaType))
  }

  /**
   * The field loop of `convertSimple`: the property lines, and the
   * dependency set (filled only when a location hint is given).
   */
  method SimpleFields(ms: seq<FieldMatch>, currentFilePath: Option<string>)
    returns (properties: string, dependencies: seq<string>)
    ensures properties == SimpleLines(SimpleAccepted(ms))
    ensures dependencies == if Truthy(currentFilePath) then Distinct(SimpleDepNames(SimpleAccepted(ms))) else []
  {
    properties := "";
    dependencies := [];
    var processedFields: set<string> := {};
    ghost var acc: seq<FieldMatch> := [];
    for i := 0 to |ms|
      invariant acc == SimpleAccepted(ms[..i])
      invariant forall n :: n in processedFields <==> n in Keys(acc, FieldNameOf)
      invariant properties == SimpleLines(acc)
      invariant NoDups(dependencies)
      invariant dependencies == if Truthy(currentFilePath) then Distinct(SimpleDepNames(acc)) else []
    {
      var m := ms[i];
      assert ms[..i + 1] == ms[..i] + [m];
      KeepFirstSnocFiltered(ms[..i], m, acc);
      var javaType := Trim(m.javaType);
      var fieldName := m.fieldName;
      if fieldName == "serialVersionUID" || fieldName in processedFields {
        continue;
      }
      if !IsFieldName(fieldName) {
        continue;
      }
      var tsFieldName := fieldName;
      if m.jsonName.Some? && m.jsonName.value != "" {
        var jsonPropertyName := m.jsonName.value;
        if '@' in jsonPropertyName || '-' in jsonPropertyName || '.' in jsonPropertyName {
          tsFieldName := "\"" + jsonPropertyName + "\"";
        } else {
          tsFieldName := jsonPropertyName;
        }
      }
      processedFields := processedFields + {fieldName};
      var tsType := MapType(javaType);
      assert tsFieldName == SimpleName(m.jsonName, fieldName);
      var line := "  " + tsFieldName + "?: " + tsType + ";\n";
      properties := properties + line;
      if currentFilePath.Some? && currentFilePath.value != "" {
        dependencies := CollectFieldDependencies(dependencies, tsType, javaType, acc);
      }
      SimpleSnoc(acc, m);
      acc := acc + [m];
    }
    assert ms[..|ms|] == ms;
  }

  /** Collecting the names of one accepted field into the dependency set: the mapped type, then the Java type. */
  method CollectFieldDependencies(dependencies: seq<string>, tsType: string, javaType: string, ghost acc: seq<FieldMatch>)
    returns (result: seq<string>)
    requires NoDups(dependencies) && dependencies == Distinct(SimpleDepNames(acc))
    ensures NoDups(result)
    ensures result == Distinct(SimpleDepNames(acc) + Names(tsType) + Names(javaType))
  {
    var d := CollectTypeDependencies(tsType, dependencies);
    DistinctAbsorbs(SimpleDepNames(acc), Names(tsType));
    DistinctElements(SimpleDepNames(acc) + Names(tsType));
    result := CollectTypeDependencies(javaType, d);
    DistinctAbsorbs(SimpleDepNames(acc) + Names(tsType), Names(javaType));
    DistinctElements(SimpleDepNames(acc) + Names(tsType) + Names(javaType));
  }

  lemma SimpleSnoc(acc: seq<FieldMatch>, m: FieldMatch)
    ensures SimpleLines(acc + [m]) == SimpleLines(acc) + SimpleLine(m)
    ensures SimpleDepNames(acc + [m]) == SimpleDepNames(acc) + Names(SimpleType(m)) + Names(Trim(m.javaType))
  {
    assert (acc + [m])[..|acc|] == acc;
  }

  /** One step of the fast path's keep-first selection. */
  lemma KeepFirstSnocFiltered(prefix: seq<FieldMatch>, m: FieldMatch, acc: seq<FieldMatch>)
    requires acc == SimpleAccepted(prefix)
    ensures SimpleAccepted(prefix + [m])
      == if SimpleValid(m) && m.fieldName !in Keys(acc, FieldNameOf) then acc + [m] else acc
  {
    FilterSnoc(prefix, m, SimpleValid);
    var f := Filter(prefix, SimpleValid);
    if SimpleValid(m) {
      KeepFirstSnoc(f, m, FieldNameOf);
      KeepFirstKeys(f, FieldNameOf);
    } else {
      assert f + [] == f;
    }
  }

  /**
   * What the fast path accepts: matches that pass the name checks, each Java
   * name at most once, and every name that passes the checks somewhere.
   */
  lemma SimpleAcceptedSpec(ms: seq<FieldMatch>)
    ensures forall m | m in SimpleAccepted(ms) :: m in ms && SimpleValid(m)
    ensures NoDups(Keys(SimpleAccepted(ms), FieldNameOf))
    ensures forall m | m in ms && SimpleValid(m) :: m.fieldName in Keys(SimpleAccepted(ms), FieldNameOf)
  {
    var f := Filter(ms, SimpleValid);
    KeepFirstMembers(f, FieldNameOf);
    KeepFirstNoDups(f, FieldNameOf);
    KeepFirstKeys(f, FieldNameOf);
    forall m | m in ms && SimpleValid(m)
      ensures m.fieldName in Keys(SimpleAccepted(ms), FieldNameOf)
    {
      FilterKeeps(ms, m, SimpleValid);
      var i :| 0 <= i < |f| && f[i] == m;
      assert Keys(f, FieldNameOf)[i] == m.fieldName;
    }
  }

  // ---------------------------------------------------------------------------
  // The full path (extractProperties, removeDuplicateProperties)

  /** The full path quotes an annotated name when it holds `@`, `-`, `.` or any other character outside `[a-zA-Z0-9_]`. */
  function FullName(jsonName: string): string {
    if '@' in jsonName || '-' in jsonName || '.' in jsonName || exists i | 0 <= i < |jsonName| :: !IsWordChar(jsonName[i])
    then Quoted(jsonName)
    else jsonName
  }

  function AnnotatedEntry(a: AnnotatedField): Entry {
    Entry(a.fieldName, Property(FullName(a.jsonName), MapType(Trim(a.javaType)), true))
  }

  function PlainEntry(p: PlainField): Entry {
    Entry(p.fieldName, Property(p.fieldName, MapType(Trim(p.javaType)), true))
  }

  function AnnotatedEntries(as_: seq<AnnotatedField>): seq<Entry> {
    if as_ == [] then [] else AnnotatedEntries(as_[..|as_| - 1]) + [AnnotatedEntry(as_[|as_| - 1])]
  }

  function PlainEntries(ps: seq<PlainField>): seq<Entry> {
    if ps == [] then [] else PlainEntries(ps[..|ps| - 1]) + [PlainEntry(ps[|ps| - 1])]
  }

  predicate NotSerial(e: Entry) {
    e.javaName != "serialVersionUID"
  }

  function JavaName(e: Entry): string {
    e.javaName
  }

  /** The entries of the annotated pass: the first one per Java name. */
  function AnnotatedCollected(as_: seq<AnnotatedField>): seq<Entry> {
    KeepFirst(Filter(AnnotatedEntries(as_), NotSerial), JavaName)
  }

  /** The entries of both passes: the annotated pass runs first and claims its Java names. */
  function Collected(as_: seq<AnnotatedField>, ps: seq<PlainField>): seq<Entry> {
    KeepFirst(Filter(AnnotatedEntries(as_), NotSerial) + Filter(PlainEntries(ps), NotSerial), JavaName)
  }

  function PropsOf(es: seq<Entry>): (r: seq<Property>)
    ensures |r| == |es|
    ensures forall i | 0 <= i < |es| :: r[i] == es[i].prop
  {
    if es == [] then [] else PropsOf(es[..|es| - 1]) + [es[|es| - 1].prop]
  }

  /** The de-duplication key of `removeDuplicateProperties`. */
  function PropKey(p: Property): string {
    p.name + ":" + p.typ
  }

  /** What `extractProperties` returns. */
  function ExtractedProperties(as_: seq<AnnotatedField>, ps: seq<PlainField>): seq<Property> {
    KeepFirst(PropsOf(Collected(as_, ps)), PropKey)
  }

  /** `removeDuplicateProperties`: keeps the first property of each `name:type` key. */
  method RemoveDuplicateProperties(properties: seq<Property>) returns (r: seq<Property>)
    ensures r == KeepFirst(properties, PropKey)
  {
    var seen: set<string> := {};
    r := [];
    for i := 0 to |properties|
      invariant r == KeepFirst(properties[..i], PropKey)
      invariant seen == set k | k in Keys(r, PropKey)
    {
      var prop := properties[i];
      KeepFirstSeen(properties, i, PropKey, r, seen);
      var key := prop.name + ":" + prop.typ;
      if key in seen {
        continue;
      }
      SeenAdd(prop, PropKey, r, seen);
      seen := seen + {key};
      r := r + [prop];
    }
    assert properties[..|properties|] == properties;
  }

  /** `extractProperties`: the annotated pass, then the plain pass, then the de-duplication. */
  method ExtractProperties(as_: seq<AnnotatedField>, ps: seq<PlainField>) returns (r: seq<Property>)
    ensures r == ExtractedProperties(as_, ps)
  {
    var properties, usedFields, acc := AnnotatedPass(as_);
    properties, usedFields, acc := PlainPass(as_, ps, properties, usedFields, acc);
    r := RemoveDuplicateProperties(properties);
  }

  /** The first loop of `extractProperties`: fields with `@JsonProperty`, each Java name once. */
  method AnnotatedPass(as_: seq<AnnotatedField>)
    returns (properties: seq<Property>, usedFields: set<string>, ghost acc: seq<Entry>)
    ensures acc == AnnotatedCollected(as_)
    ensures usedFields == set n | n in Keys(acc, JavaName)
    ensures properties == PropsOf(acc)
  {
    properties := [];
    usedFields := {};
    acc := [];
    for i := 0 to |as_|
      invariant acc == KeepFirst([] + Filter(AnnotatedEntries(as_[..i]), NotSerial), JavaName)
      invariant usedFields == set n | n in Keys(acc, JavaName)
      invariant properties == PropsOf(acc)
    {
      var a := as_[i];
      ghost var e := AnnotatedEntry(a);
      assert as_[..i + 1][..i] == as_[..i];
      assert AnnotatedEntries(as_[..i + 1]) == AnnotatedEntries(as_[..i]) + [e];
      var javaType := Trim(a.javaType);
      var javaFieldName := a.fieldName;
      if javaFieldName == "serialVersionUID" || javaFieldName in usedFields {
        SeenSkip([], AnnotatedEntries(as_[..i]), e, NotSerial, JavaName, acc, usedFields);
        continue;
      }
      SeenKeep([], AnnotatedEntries(as_[..i]), e, NotSerial, JavaName, acc, usedFields);
      SeenAdd(e, JavaName, acc, usedFields);
      usedFields := usedFields + {javaFieldName};
      var tsType := MapType(javaType);
      var fieldName := QuoteAnnotated(a.jsonName);
      var prop := Property(fieldName, tsType, true);
      PropsOfSnoc(acc, e);
      properties := properties + [prop];
      acc := acc + [e];
    }
    assert as_[..|as_|] == as_;
    assert [] + Filter(AnnotatedEntries(as_), NotSerial) == Filter(AnnotatedEntries(as_), NotSerial);
  }

  /** The second loop of `extractProperties`: plain fields whose Java name is still unused. */
  method PlainPass(ghost as_: seq<AnnotatedField>, ps: seq<PlainField>,
                   properties0: seq<Property>, usedFields0: set<string>, ghost acc0: seq<Entry>)
    returns (properties: seq<Property>, usedFields: set<string>, ghost acc: seq<Entry>)
    requires acc0 == AnnotatedCollected(as_)
    requires usedFields0 == set n | n in Keys(acc0, JavaName)
    requires properties0 == PropsOf(acc0)
    ensures acc == Collected(as_, ps)
    ensures properties == PropsOf(acc)
  {
    properties, usedFields, acc := properties0, usedFields0, acc0;
    ghost var base := Filter(AnnotatedEntries(as_), NotSerial);
    assert ps[..0] == [];
    assert base + Filter(PlainEntries(ps[..0]), NotSerial) == base;
    for j := 0 to |ps|
      invariant acc == KeepFirst(base + Filter(PlainEntries(ps[..j]), NotSerial), JavaName)
      invariant usedFields == set n | n in Keys(acc, JavaName)
      invariant properties == PropsOf(acc)
    {
      var p := ps[j];
      ghost var e := PlainEntry(p);
      assert ps[..j + 1][..j] == ps[..j];
      assert PlainEntries(ps[..j + 1]) == PlainEntries(ps[..j]) + [e];
      var javaType := Trim(p.javaType);
      var fieldName := p.fieldName;
      if fieldName == "serialVersionUID" || fieldName in usedFields {
        SeenSkip(base, PlainEntries(ps[..j]), e, NotSerial, JavaName, acc, usedFields);
        continue;
      }
      SeenKeep(base, PlainEntries(ps[..j]), e, NotSerial, JavaName, acc, usedFields);
      SeenAdd(e, JavaName, acc, usedFields);
      usedFields := usedFields + {fieldName};
      var tsType := MapType(javaType);
      var prop := Property(fieldName, tsType, true);
      PropsOfSnoc(acc, e);
      properties := properties + [prop];
      acc := acc + [e];
    }
    assert ps[..|ps|] == ps;
  }

  lemma PropsOfSnoc(es: seq<Entry>, e: Entry)
    ensures PropsOf(es + [e]) == PropsOf(es) + [e.prop]
  {
    assert (es + [e])[..|es|] == es;
  }

  /** The quoting step of the annotated pass, written as the source tests it. */
  method QuoteAnnotated(jsonPropertyName: string) returns (fieldName: string)
    ensures fieldName == FullName(jsonPropertyName)
  {
    fieldName := jsonPropertyName;
    var special := false;
    for i := 0 to |jsonPropertyName|
      invariant special <==> exists k | 0 <= k < i :: !IsWordChar(jsonPropertyName[k])
    {
      if !IsWordChar(jsonPropertyName[i]) {
        special := true;
      }
    }
    if '@' in fieldName || '-' in fieldName || '.' in fieldName || special {
      fieldName := "\"" + fieldName + "\"";
    }
  }

  /**
   * What `extractProperties` promises: every property optional with a type
   * the emitter's table lookup leaves alone, no two with
   * the same `name:type`, and every Java field name used at most once.
   */
  lemma ExtractedSpec(as_: seq<AnnotatedField>, ps: seq<PlainField>)
    ensures forall p | p in ExtractedProperties(as_, ps) :: Emittable(p)
    ensures NoDups(Keys(ExtractedProperties(as_, ps), PropKey))
    ensures NoDups(Keys(Collected(as_, ps), JavaName))
  {
    var c := Collected(as_, ps);
    KeepFirstNoDups(PropsOf(c), PropKey);
    KeepFirstNoDups(Filter(AnnotatedEntries(as_), NotSerial) + Filter(PlainEntries(ps), NotSerial), JavaName);
    KeepFirstMembers(PropsOf(c), PropKey);
    AllEmittable(as_, ps);
  }

  /** A property the emitter writes as `name?: typ`: optional, and its type a fixed point of the table lookup. */
  predicate Emittable(p: Property) {
    p.isOptional && Lookup(p.typ) == p.typ
  }

  lemma AllEmittable(as_: seq<AnnotatedField>, ps: seq<PlainField>)
    ensures forall p | p in PropsOf(Collected(as_, ps)) :: Emittable(p)
  {
    var fa := Filter(AnnotatedEntries(as_), NotSerial);
    var fp := Filter(PlainEntries(ps), NotSerial);
    var c := Collected(as_, ps);
    KeepFirstMembers(fa + fp, JavaName);
    AnnotatedEmittable(as_);
    PlainEmittable(ps);
    forall i | 0 <= i < |c|
      ensures Emittable(c[i].prop)
    {
      assert c[i] in fa + fp;
    }
  }

  lemma {:induction false} AnnotatedEmittable(as_: seq<AnnotatedField>)
    ensures forall e | e in AnnotatedEntries(as_) :: Emittable(e.prop)
  {
    if as_ != [] {
      AnnotatedEmittable(as_[..|as_| - 1]);
      LookupAfterMapType(Trim(as_[|as_| - 1].javaType));
    }
  }

  lemma {:induction false} PlainEmittable(ps: seq<PlainField>)
    ensures forall e | e in PlainEntries(ps) :: Emittable(e.prop)
  {
    if ps != [] {
      PlainEmittable(ps[..|ps| - 1]);
      LookupAfterMapType(Trim(ps[|ps| - 1].javaType));
    }
  }

  /**
   * The annotated pass has priority: its entries come first, unchanged, and
   * no later entry reuses one of their Java names, so a plain field whose
   * name an annotated field claimed is left out.
   */
  lemma AnnotatedFirst(as_: seq<AnnotatedField>, ps: seq<PlainField>)
    ensures |AnnotatedCollected(as_)| <= |Collected(as_, ps)|
    ensures Collected(as_, ps)[..|AnnotatedCollected(as_)|] == AnnotatedCollected(as_)
    ensures forall e | e in Collected(as_, ps)[|AnnotatedCollected(as_)|..] ::
      e.javaName !in Keys(AnnotatedCollected(as_), JavaName)
  {
    var fa := Filter(AnnotatedEntries(as_), NotSerial);
    var fp := Filter(PlainEntries(ps), NotSerial);
    var a := AnnotatedCollected(as_);
    var c := Collected(as_, ps);
    KeepFirstAbsorbs(fa, fp, JavaName);
    KeepFirstNoDups(fa, JavaName);
    KeepFirstKeepsPrefix(a, fp, JavaName);
    KeepFirstNoDups(fa + fp, JavaName);
    var kc := Keys(c, JavaName);
    forall e | e in c[|a|..]
      ensures e.javaName !in Keys(a, JavaName)
    {
      var j :| |a| <= j < |c| && c[j] == e;
      forall i | 0 <= i < |a|
        ensures Keys(a, JavaName)[i] != e.javaName
      {
        assert a[i] == c[i];
        assert kc[i] != kc[j];
      }
    }
  }

  /** Of the three quoting tests of the annotated pass only the last matters: any character outside `[a-zA-Z0-9_]` quotes. */
  lemma FullNameQuotes(j: string)
    ensures FullName(j) == if exists i | 0 <= i < |j| :: !IsWordChar(j[i]) then Quoted(j) else j
  {
    if '@' in j || '-' in j || '.' in j {
      var i :| 0 <= i < |j| && j[i] in "@-.";
      assert !IsWordChar(j[i]);
    }
  }

  /**
   * The two paths quote differently: a name with a character outside
   * `[a-zA-Z0-9_]` other than `@`, `-` or `.` (a space, say) is quoted by
   * the full path and written bare by the fast path.
   */
  lemma QuotingDiffers(j: string, fieldName: string, i: nat)
    requires i < |j| && !IsWordChar(j[i])
    requires '@' !in j && '-' !in j && '.' !in j
    ensures FullName(j) == Quoted(j)
    ensures SimpleName(Some(j), fieldName) == j
  {
  }

  /**
   * The de-duplication is by `name:type`, so two properties with the same
   * name and different types both survive and the interface declares the
   * name twice.
   */
  lemma SameNameDifferentTypes(p: Property, q: Property)
    requires p.name == q.name && p.typ != q.typ
    ensures KeepFirst([p, q], PropKey) == [p, q]
  {
    assert PropKey(p)[|p.name| + 1..] == p.typ;
    assert PropKey(q)[|q.name| + 1..] == q.typ;
    assert [p, q][..1] == [p];
    assert [p][..0] == [];
  }
}
