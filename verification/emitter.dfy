/**
 * The text the converter writes: the `export interface` block of both
 * paths and the `export enum` block of `convertEnumToTypeScript`.
 */
module Emitter {
  import opened Options
  import opened Text
  import opened TypeMapper
  import opened Fields

  /** The import statements joined by newlines and followed by a blank line, or nothing. */
  function ImportBlock(statements: seq<string>): string {
    if |statements| > 0 then Join(statements, "\n") + "\n\n" else ""
  }

  /** ` extends E` for a recorded supertype, or nothing. */
  function ExtendsClause(extendsClass: Option<string>): string {
    if extendsClass.Some? && extendsClass.value != "" then " extends " + extendsClass.value else ""
  }

  /** The opening line of the interface, after its imports. */
  function Header(imports: string, className: string, extendsClause: string): string {
    imports + "export interface " + className + extendsClause + " {\n"
  }

  // ---------------------------------------------------------------------------
  // The full path (convertToInterface)

  /** One property line; the type goes through the table a second time. */
  function PropertyLine(p: Property): string {
    "  " + p.name + (if p.isOptional then "?" else "") + ": " + Lookup(p.typ) + ";\n"
  }

  function PropertyLines(props: seq<Property>): string {
    if props == [] then [] else PropertyLines(props[..|props| - 1]) + PropertyLine(props[|props| - 1])
  }

  /** The whole interface of the full path. */
  function InterfaceText(statements: seq<string>, className: string, extendsClass: Option<string>, props: seq<Property>): string {
    Header(ImportBlock(statements), className, ExtendsClause(extendsClass)) + PropertyLines(props) + "}\n"
  }

  /** The emitting half of `convertToInterface`: header, one line per property, closing brace. */
  method EmitInterface(statements: seq<string>, className: string, extendsClass: Option<string>, properties: seq<Property>)
    returns (interfaceCode: string)
    ensures interfaceCode == InterfaceText(statements, className, extendsClass, properties)
  {
    var imports := "";
    if |statements| > 0 {
      imports := Join(statements, "\n") + "\n\n";
    }
    var extendsClause := if extendsClass.Some? && extendsClass.value != "" then " extends " + extendsClass.value else "";
    interfaceCode := imports + "export interface " + className + extendsClause + " {\n";
    ghost var header := interfaceCode;
    for i := 0 to |properties|
      invariant interfaceCode == header + PropertyLines(properties[..i])
    {
      var prop := properties[i];
      var tsType := Lookup(prop.typ);
      var optional := if prop.isOptional then "?" else "";
      var line := "  " + prop.name + optional + ": " + tsType + ";\n";
      assert properties[..i + 1][..i] == properties[..i];
      interfaceCode := interfaceCode + line;
    }
    assert properties[..|properties|] == properties;
    interfaceCode := interfaceCode + "}\n";
  }

  /** For the properties `extractProperties` produces, each line reads `name?: type;` with the stored type. */
  lemma EmittableLine(p: Property)
    requires Emittable(p)
    ensures PropertyLine(p) == "  " + p.name + "?: " + p.typ + ";\n"
  {
  }

  /** The property lines, one per property, each in the `name?: type;` form. */
  lemma {:induction false} EmittedLines(props: seq<Property>)
    requires forall p | p in props :: Emittable(p)
    ensures PropertyLines(props) == JoinLines(props)
  {
    if props != [] {
      var q := props[..|props| - 1];
      assert forall p | p in q :: p in props;
      EmittedLines(q);
      EmittableLine(props[|props| - 1]);
    }
  }

  /** The lines `  name?: type;` of the properties, as written by the fast path's format. */
  function JoinLines(props: seq<Property>): string {
    if props == [] then []
    else
      var p := props[|props| - 1];
      JoinLines(props[..|props| - 1]) + ("  " + p.name + "?: " + p.typ + ";\n")
  }

  /**
   * The two paths agree on a plain field: the fast path's line for a field
   * without annotation is the full path's line for the same field.
   */
  lemma PathsAgreeOnPlainField(javaType: string, fieldName: string)
    ensures SimpleLine(FieldMatch(None, javaType, fieldName))
      == PropertyLine(PlainEntry(PlainField(javaType, fieldName)).prop)
  {
    LookupAfterMapType(Trim(javaType));
  }

  // ---------------------------------------------------------------------------
  // The fast path (convertSimple)

  /** The fast path's interface: the property text is included only when it is not blank. */
  function SimpleInterfaceText(imports: string, className: string, extendsClause: string, properties: string): string {
    Header(imports, className, extendsClause) + (if Trim(properties) != [] then properties else []) + "}\n"
  }

  /** The blank test never drops anything: the property text is blank only when there are no fields. */
  lemma {:induction false} SimpleLinesBlank(acc: seq<FieldMatch>)
    ensures Trim(SimpleLines(acc)) == [] <==> acc == []
  {
    if acc != [] {
      var before := SimpleLines(acc[..|acc| - 1]);
      var line := SimpleLine(acc[|acc| - 1]);
      assert line[2 + |SimpleName(acc[|acc| - 1].jsonName, acc[|acc| - 1].fieldName)|] == '?';
      assert (before + line)[|before| + 2 + |SimpleName(acc[|acc| - 1].jsonName, acc[|acc| - 1].fieldName)|] == '?';
      TrimKeepsNonSpace(before + line, |before| + 2 + |SimpleName(acc[|acc| - 1].jsonName, acc[|acc| - 1].fieldName)|);
    }
  }

  /** So the fast path's interface is the header, every accepted line, and the closing brace. */
  lemma SimpleInterfaceComplete(imports: string, className: string, extendsClause: string, acc: seq<FieldMatch>)
    ensures SimpleInterfaceText(imports, className, extendsClause, SimpleLines(acc))
      == Header(imports, className, extendsClause) + SimpleLines(acc) + "}\n"
  {
    SimpleLinesBlank(acc);
  }

  // ---------------------------------------------------------------------------
  // convertEnumToTypeScript

  /** A match of the enum-constant pattern: the constant and its optional string argument. */
  datatype EnumMatch = EnumMatch(constantName: string, literal: Option<string>)

  datatype EnumValue = EnumValue(name: string, value: string)

  /** A constant's value: its string argument when given, otherwise its name in lower case. */
  function ValueOf(m: EnumMatch): EnumValue {
    EnumValue(m.constantName, if m.literal.Some? && m.literal.value != [] then m.literal.value else ToLower(m.constantName))
  }

  /** The values of the constants that are constant-shaped, in order. */
  function EnumValues(ms: seq<EnumMatch>): seq<EnumValue> {
    if ms == [] then []
    else
      var m := ms[|ms| - 1];
      EnumValues(ms[..|ms| - 1]) + (if IsConstName(m.constantName) then [ValueOf(m)] else [])
  }

  /** `NAME = "value"`. */
  function Member(v: EnumValue): string {
    v.name + " = \"" + v.value + "\""
  }

  /** Line `k` of the enum: indented, with a comma unless it is the last. */
  function EnumLine(vs: seq<EnumValue>, k: nat): string
    requires k < |vs|
  {
    "  " + Member(vs[k]) + (if k == |vs| - 1 then "" else ",") + "\n"
  }

  /** Lines `0..i` of the enum. */
  function EnumLines(vs: seq<EnumValue>, i: nat): string
    requires i <= |vs|
  {
    if i == 0 then [] else EnumLines(vs, i - 1) + EnumLine(vs, i - 1)
  }

  /** The whole text of `convertEnumToTypeScript`. */
  function EnumText(enumName: string, body: Option<seq<EnumMatch>>): string {
    if body.None? then "// Could not parse enum body\n"
    else
      var vs := EnumValues(body.value);
      "export enum " + enumName + " {\n"
        + (if |vs| == 0 then "  // No enum values found\n" else EnumLines(vs, |vs|))
        + "}\n"
  }

  /** `convertEnumToTypeScript`: collects the constants, then writes one line per constant. */
  method ConvertEnumToTypeScript(body: Option<seq<EnumMatch>>, enumName: string) returns (tsEnum: string)
    ensures tsEnum == EnumText(enumName, body)
  {
    if body.None? {
      return "// Could not parse enum body\n";
    }
    var matches := body.value;
    var enumValues: seq<EnumValue> := [];
    for i := 0 to |matches|
      invariant enumValues == EnumValues(matches[..i])
    {
      var m := matches[i];
      assert matches[..i + 1][..i] == matches[..i];
      var constantName := m.constantName;
      var constantValue := if m.literal.Some? && m.literal.value != "" then m.literal.value else ToLower(constantName);
      if IsConstName(constantName) {
        enumValues := enumValues + [EnumValue(constantName, constantValue)];
      }
    }
    assert matches[..|matches|] == matches;
    tsEnum := "export enum " + enumName + " {\n";
    ghost var header := tsEnum;
    if |enumValues| == 0 {
      tsEnum := tsEnum + "  // No enum values found\n";
    } else {
      for index := 0 to |enumValues|
        invariant tsEnum == header + EnumLines(enumValues, index)
      {
        var isLast := index == |enumValues| - 1;
        var line := "  " + enumValues[index].name + " = \"" + enumValues[index].value + "\"" + (if isLast then "" else ",") + "\n";
        assert line == EnumLine(enumValues, index);
        tsEnum := tsEnum + line;
      }
    }
    tsEnum := tsEnum + "}\n";
  }

  function Members(vs: seq<EnumValue>): (r: seq<string>)
    ensures |r| == |vs|
    ensures forall k | 0 <= k < |vs| :: r[k] == Member(vs[k])
  {
    if vs == [] then [] else Members(vs[..|vs| - 1]) + [Member(vs[|vs| - 1])]
  }

  /** Joining with one more piece at the end. */
  lemma {:induction false} JoinSnoc(xs: seq<string>, x: string, sep: string)
    requires xs != []
    ensures Join(xs + [x], sep) == Join(xs, sep) + sep + x
  {
    if |xs| == 1 {
      assert (xs + [x])[1..] == [x];
    } else {
      assert (xs + [x])[1..] == xs[1..] + [x];
      JoinSnoc(xs[1..], x, sep);
    }
  }

  /** Before the last line, the lines written so far are the members joined by `,\n`, each followed by `,\n`. */
  lemma {:induction false} EnumLinesPrefix(vs: seq<EnumValue>, i: nat)
    requires 0 < i < |vs|
    ensures EnumLines(vs, i) == "  " + Join(Members(vs[..i]), ",\n  ") + ",\n"
  {
    if i == 1 {
      assert Members(vs[..1]) == [Member(vs[0])];
    } else {
      EnumLinesPrefix(vs, i - 1);
      assert Members(vs[..i]) == Members(vs[..i - 1]) + [Member(vs[i - 1])] by {
        assert vs[..i][..i - 1] == vs[..i - 1];
      }
      JoinSnoc(Members(vs[..i - 1]), Member(vs[i - 1]), ",\n  ");
    }
  }

  /**
   * The enum body is the members joined by a comma and a line break, so
   * every line but the last ends with a comma.
   */
  lemma EnumBody(vs: seq<EnumValue>)
    requires vs != []
    ensures EnumLines(vs, |vs|) == "  " + Join(Members(vs), ",\n  ") + "\n"
  {
    var n := |vs|;
    if n == 1 {
      assert Members(vs) == [Member(vs[0])];
    } else {
      EnumLinesPrefix(vs, n - 1);
      JoinSnoc(Members(vs[..n - 1]), Member(vs[n - 1]), ",\n  ");
      EnumLastLine(vs, Members(vs[..n - 1]));
    }
  }

  lemma EnumLastLine(vs: seq<EnumValue>, front: seq<string>)
    requires |vs| > 1
    requires EnumLines(vs, |vs| - 1) == "  " + Join(front, ",\n  ") + ",\n"
    ensures EnumLines(vs, |vs|) == "  " + (Join(front, ",\n  ") + ",\n  " + Member(vs[|vs| - 1])) + "\n"
  {
  }

  /** One value per constant-shaped match, in order; a constant without an argument gets its name in lower case. */
  lemma {:induction false} EnumValuesSpec(ms: seq<EnumMatch>)
    ensures |EnumValues(ms)| <= |ms|
    ensures forall v | v in EnumValues(ms) :: IsConstName(v.name)
    ensures (forall m | m in ms :: IsConstName(m.constantName)) ==> |EnumValues(ms)| == |ms|
    ensures forall v | v in EnumValues(ms) :: exists m | m in ms :: IsConstName(m.constantName) && v == ValueOf(m)
    ensures forall m | m in ms && IsConstName(m.constantName) :: ValueOf(m) in EnumValues(ms)
  {
    if ms != [] {
      var q := ms[..|ms| - 1];
      assert forall m | m in q :: m in ms;
      assert forall m | m in ms :: m in q || m == ms[|ms| - 1];
      EnumValuesSpec(q);
    }
  }

  /** A value derived from the name is the name in lower case, and so has no upper-case letter. */
  lemma DerivedValueLowerCase(name: string)
    requires IsConstName(name)
    ensures ValueOf(EnumMatch(name, None)).value == ToLower(name)
    ensures |ValueOf(EnumMatch(name, None)).value| == |name|
    ensures forall i | 0 <= i < |name| :: !IsUpper(ValueOf(EnumMatch(name, None)).value[i])
  {
  }
}
