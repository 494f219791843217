# Java-to-TypeScript converter core, modelled in Dafny

This project models the core of `JavaToTypeScriptConverter`. The class turns a
Java source file (a data class or an enum) into TypeScript text: an
`export interface` with one optional property per field, or an `export enum`.
It has two routes through the same machinery:

- the fast path `convertSimple`: quick refusals, one declaration match, one
  field pass, dependencies collected recursively, imports only when a location
  hint is given;
- the full path `convert`: the length gate, a memo table of finished results
  keyed by a 32-bit string hash, and `convertToInterface`. That route uses the
  last valid declaration name, a `@JsonProperty` pass and a plain-field pass,
  de-duplication by `name:type`, and shallow dependency discovery.

The two routes share the Java-to-TypeScript type mapper, the built-in type
test, the import resolver (a fixed registry plus relative paths) and the
import memo table.

The regular expressions are not modelled as regular expressions. What each
pattern finds in a source is an input, in the order in which the source's
loop visits the matches:

- `Fields.FieldMatch`, `Fields.AnnotatedField` and `Fields.PlainField` hold
  field matches;
- `Declarations` receives the declaration candidates and the captured
  supertype;
- `Emitter.EnumMatch` holds enum constants;
- `Converter.SimpleSource` and `Converter.FullSource` gather everything one
  call sees.

Everything done to those matches is modelled exactly, with the same branches,
constants and output text. That covers trimming with the JavaScript
white-space set, validation, quoting, the recursive type mapping, the
top-level comma splitter, de-duplication, output text, the path arithmetic and
the hashing.

Layout:

- `options.dfy`: the `Option` type.
- `text.dfy`: the JavaScript string operations used (`trim`, `split`, `join`,
  `indexOf`, `toLowerCase` on ASCII) and the name shapes the validation
  patterns accept.
- `sequences.dfy`: ordered de-duplication (`KeepFirst`, `Distinct`). This is
  how a JavaScript `Set` (insertion-ordered, no repeats) and a `seen`-set
  filter are modelled.
- `type_mapper.dfy`: the type table, `parseGenericTypes`,
  `convertJavaTypeToTS`.
- `dependencies.dfy`: `isBuiltInType`, `collectTypeDependencies`,
  `findDependencies`.
- `imports.dfy`: the location registry, `calculateRelativePath`, import
  statements and their memo key.
- `fields.dfy`: the field pass of `convertSimple`, `extractProperties`,
  `removeDuplicateProperties`.
- `declarations.dfy`: `extractClassName`, `extractExtendsClass`, the blocklist
  and the quick-skip test.
- `emitter.dfy`: interface text and `convertEnumToTypeScript`.
- `converter.dfy`: the converter object, with its `cache` and `importCache`
  fields, `generateCacheKey`, `generateSmartImports`, `convertToInterface`,
  `convert` and `convertSimple`.

Each method that loops or updates the object is proved against a
specification function. Its `ensures` ties the result, and the new
`cache`/`importCache`, to that function of the inputs and the old state. The
lemmas then state what those functions guarantee.

All source paths below are in `src/converter/JavaToTypeScriptConverter.js`.

## Model

| member | source | states |
|---|---|---|
| TypeMapper.MapTypeTableKeys | src/converter/JavaToTypeScriptConverter.js:3-29 | each of the 25 Java names in the type table maps to exactly its table entry (`int` to `number`, `LocalDate` to `Date`, `Object` to `any`, ...) |
| TypeMapper.TableKeysAreWords | src/converter/JavaToTypeScriptConverter.js:3-29 | every key of the type table is a plain identifier, so none can be an array or a generic |
| TypeMapper.ParseGenericTypes | src/converter/JavaToTypeScriptConverter.js:559-586 | the depth-counting loop returns the trimmed pieces between top-level commas (commas inside `<...>` do not split), dropping a blank last piece |
| TypeMapper.SplitTopLevelLength | src/converter/JavaToTypeScriptConverter.js:559-586 | no piece is longer than the input, which is what makes the mutual recursion of the mapper terminate |
| TypeMapper.SplitTopLevelTrimmed | src/converter/JavaToTypeScriptConverter.js:573-583 | every piece returned is already trimmed |
| TypeMapper.SplitAtTopComma | src/converter/JavaToTypeScriptConverter.js:573-575 | a comma at nesting depth 0 ends the current piece, which is emitted trimmed, and splitting restarts after it |
| TypeMapper.SplitWithoutTopComma | src/converter/JavaToTypeScriptConverter.js:581-585 | text without a top-level comma gives one piece, its trimmed self, or nothing when blank |
| TypeMapper.SplitExample | src/converter/JavaToTypeScriptConverter.js:559-586 | `"String, List<A, B>"` splits into `["String", "List<A, B>"]`: the nested comma is kept |
| TypeMapper.MapTypeTrim | src/converter/JavaToTypeScriptConverter.js:507 | the mapping ignores surrounding white space |
| TypeMapper.MapTypeArray | src/converter/JavaToTypeScriptConverter.js:510-514 | `E[]` maps to the mapping of `E` followed by `[]` |
| TypeMapper.MapTypeCollection | src/converter/JavaToTypeScriptConverter.js:523-526 | `List<X>`, `ArrayList<X>`, `Set<X>` and `Collection<X>` map to the mapping of `X` followed by `[]` |
| TypeMapper.MapTypeGeneric | src/converter/JavaToTypeScriptConverter.js:517-546 | any `C<x>` with an identifier container and a one-line inner text is mapped by the container rules applied to the trimmed inner text |
| TypeMapper.MapGenericMap | src/converter/JavaToTypeScriptConverter.js:528-535 | rule of the map branch: a `Map` or `HashMap` whose inner text splits into at least two top-level pieces becomes the index signature of the mapped first two pieces; further pieces are ignored |
| TypeMapper.MapTypeMap | src/converter/JavaToTypeScriptConverter.js:528-535 | the two-argument instance of the map rule, stated directly on the text `Map<K,V>` or `HashMap<K,V>` for a key without leading blanks and a value without trailing blanks: the index signature `{ [key: K']: V' }` of the mapped key and value types |
| TypeMapper.MapTypeOptional | src/converter/JavaToTypeScriptConverter.js:538-541 | `Optional<X>` maps to the mapping of `X` followed by ` \| undefined` |
| TypeMapper.MapTypeOtherGeneric | src/converter/JavaToTypeScriptConverter.js:543-545 | any other generic, including a map with fewer than two parameters, keeps its container and maps its inner text |
| TypeMapper.MapTypeWord | src/converter/JavaToTypeScriptConverter.js:549-556 | a plain identifier maps to its table entry when it has one and is kept otherwise |
| TypeMapper.MapTypeKeepsCustomNames | src/converter/JavaToTypeScriptConverter.js:555-556 | a trimmed non-array, non-generic name outside the table is kept as written |
| TypeMapper.LookupAfterMapType | src/converter/JavaToTypeScriptConverter.js:221 | looking up a mapped type in the table again changes nothing, so the emitter's second lookup is harmless |
| Dependencies.BuiltInsAreWords | src/converter/JavaToTypeScriptConverter.js:365-376 | every built-in type, from the list or the table keys, is a plain identifier |
| Dependencies.NotBuiltIn | src/converter/JavaToTypeScriptConverter.js:365-376 | text with any character outside `[A-Za-z0-9_]` is never built in |
| Dependencies.CollectTypeDependencies | src/converter/JavaToTypeScriptConverter.js:697-742 | the set after the recursive walk is the old set followed by the names the walk meets, in first-seen order, without repeats |
| Dependencies.CollectGeneric | src/converter/JavaToTypeScriptConverter.js:710-727 | for `C<inner>`: the container unless built in, then the names of each top-level inner type, are added to the set |
| Dependencies.CollectEach | src/converter/JavaToTypeScriptConverter.js:722-733 | walking a list of types adds the names of each in turn |
| Dependencies.CollectGrowsSet | src/converter/JavaToTypeScriptConverter.js:697-742 | the set only grows. The old entries stay first and in order. Its members are exactly the old ones plus the walked names. Every added name is trimmed and not built in |
| Dependencies.NamesInsertable | src/converter/JavaToTypeScriptConverter.js:697-742 | every name the walk tries to insert is trimmed and not built in |
| Dependencies.CollectTwice | src/converter/JavaToTypeScriptConverter.js:697-742 | walking the same type twice adds nothing the first walk did not |
| Dependencies.FlatNames | src/converter/JavaToTypeScriptConverter.js:737-741 | a type with no `<` and no `,` contributes at most one name, a class name that is not built in |
| Dependencies.AtomRule | src/converter/JavaToTypeScriptConverter.js:737-741 | rule of the last branch, by definition: a single non-array, non-built-in type contributes its trimmed self exactly when that is a class name not built in |
| Dependencies.ContainerRule | src/converter/JavaToTypeScriptConverter.js:710-725 | a `C<x>` text is walked as the matched container and inner text |
| Dependencies.ClassNameInserted | src/converter/JavaToTypeScriptConverter.js:738-741 | a class name that is not built in contributes exactly itself |
| Dependencies.BuiltInContainerOfClass | src/converter/JavaToTypeScriptConverter.js:710-727 | a built-in container of a custom class, like `List<EntityRef>`, contributes only the class |
| Dependencies.CollectListExample | src/converter/JavaToTypeScriptConverter.js:709 | `List<EntityRef>` contributes exactly `EntityRef` |
| Dependencies.CustomTypes | src/converter/JavaToTypeScriptConverter.js:257-261 | the kept inner types are exactly those that are not built in, in order |
| Dependencies.FindDependencies | src/converter/JavaToTypeScriptConverter.js:237-272 | the result is the distinct candidates of the property types in order: an array's element, a generic's non-built-in top-level parameters, or the type itself |
| Dependencies.FilterBuiltIns | src/converter/JavaToTypeScriptConverter.js:257-261 | the loop keeps exactly the parameters that are not built in |
| Dependencies.FindDependenciesElements | src/converter/JavaToTypeScriptConverter.js:237-272 | the result has no repeats, contains exactly the candidates, and none is built in |
| Dependencies.ArrayCandidate | src/converter/JavaToTypeScriptConverter.js:246-250 | a non-built-in `E[]` gives `E` |
| Dependencies.PlainCandidate | src/converter/JavaToTypeScriptConverter.js:264-267 | rule of the plain branch, by definition: a non-built-in type that is neither an array nor generic is reported whole |
| Dependencies.OptionalTypeQuirk | src/converter/JavaToTypeScriptConverter.js:253-267 | an `Optional<X>` field's mapped type `X' \| undefined` is reported whole as a dependency (it has no `<`), so an import for that text is generated |
| Imports.CurrentDir | src/converter/JavaToTypeScriptConverter.js:353 | with a `/` in the path, the directory is a proper prefix of the path that is followed by a `/`, and no `/` comes after that one (so it is the last); without a `/` it is empty |
| Imports.CalculateRelativePath | src/converter/JavaToTypeScriptConverter.js:344-363 | the loop returns `./target` without a hint, otherwise one `../` per directory level followed by the target |
| Imports.DirDepthCountsSlashes | src/converter/JavaToTypeScriptConverter.js:353-354 | the depth is the number of `/` in the path, except 0 when the only directory is empty (the path starts with its last `/`) |
| Imports.TopLevelPathIsBare | src/converter/JavaToTypeScriptConverter.js:353-362 | a path without `/` gives the bare target, with no `./` |
| Imports.RelativePathClimbs | src/converter/JavaToTypeScriptConverter.js:357-362 | rule of the loop, by definition: with a hint, the result is `../` repeated depth times and then the target, and its length is 3 times the depth plus the target's length |
| Imports.RelativePathTwoLevels | src/converter/JavaToTypeScriptConverter.js:350-362 | a hint `a/b/c` climbs exactly two levels: `../../target` |
| Imports.ImportLinesShape | src/converter/JavaToTypeScriptConverter.js:315-337 | one statement per dependency that is not built in, in input order, `import { D } from 'path';` |
| Imports.OptionalImportStatement | src/converter/JavaToTypeScriptConverter.js:253-336 | for an `Optional<X>` property whose mapped inner type has no `<`, the full path's dependency scan and import builder yield exactly one statement, importing the text `X' \| undefined` from `./X' \| undefined`, whatever the location hint |
| Imports.UnregisteredUndefined | src/converter/JavaToTypeScriptConverter.js:317-334 | a text ending in ` \| undefined` is neither built in nor in the location registry, so it takes the `./` fallback |
| Imports.SingleUnregistered | src/converter/JavaToTypeScriptConverter.js:315-337 | a lone dependency that is neither built in nor registered gives the one statement importing it from `./D` |
| Imports.ImportPathRules | src/converter/JavaToTypeScriptConverter.js:321-334 | rule of the path choice, by definition: a registered dependency with a truthy hint is imported by the relative path to its location; anything else from `./D` |
| Imports.ImportKeyNullCollision | src/converter/JavaToTypeScriptConverter.js:276-279 | the memo key of a missing hint equals that of the hint `"null"`, although the two calls compute different statements |
| Fields.SimpleFields | src/converter/JavaToTypeScriptConverter.js:88-127 | the field loop writes one line `  name?: type;` per accepted match, in match order. With a truthy hint the dependencies are the distinct names of each accepted field's mapped and Java types; without a hint there are none |
| Fields.CollectFieldDependencies | src/converter/JavaToTypeScriptConverter.js:122-126 | a field adds the names of its mapped type, then of its Java type, keeping the set free of repeats |
| Fields.SimpleAcceptedSpec | src/converter/JavaToTypeScriptConverter.js:96-116 | accepted matches come from the input and are valid (not `serialVersionUID`, lowercase-initial). No two share a field name. Every valid field name is represented |
| Fields.ExtractProperties | src/converter/JavaToTypeScriptConverter.js:436-491 | the result is the annotated pass's entries followed by the plain pass's, skipping `serialVersionUID` and Java names already used, then de-duplicated by `name:type` |
| Fields.AnnotatedPass | src/converter/JavaToTypeScriptConverter.js:441-467 | the annotated loop keeps the first match per Java name, records exactly those names as used, and emits their properties |
| Fields.PlainPass | src/converter/JavaToTypeScriptConverter.js:470-488 | the plain loop continues from the annotated pass, keeping the first match per Java name not yet used |
| Fields.RemoveDuplicateProperties | src/converter/JavaToTypeScriptConverter.js:493-503 | the filter keeps the first property of each `name:type` key, in order |
| Fields.QuoteAnnotated | src/converter/JavaToTypeScriptConverter.js:453-458 | the quoting test wraps the JSON name in double quotes exactly when the full path's quoting rule says so |
| Fields.ExtractedSpec | src/converter/JavaToTypeScriptConverter.js:436-503 | every extracted property is optional and its type is stable under the table lookup. No two properties share `name:type`. No two collected entries share a Java name |
| Fields.AnnotatedFirst | src/converter/JavaToTypeScriptConverter.js:440-478 | annotated fields win: the collected entries begin with the annotated pass's, and no later entry reuses one of their Java names |
| Fields.FullNameQuotes | src/converter/JavaToTypeScriptConverter.js:456-457 | of the four quoting tests only the last matters: a name is quoted exactly when it has a character outside `[a-zA-Z0-9_]` |
| Fields.QuotingDiffers | src/converter/JavaToTypeScriptConverter.js:109-113 | a JSON name containing, say, a space (but no `@`, `-` or `.`) is quoted by the full path and written bare by the fast path |
| Fields.SameNameDifferentTypes | src/converter/JavaToTypeScriptConverter.js:493-503 | two properties with the same name and different types both survive de-duplication |
| Fields.PropsOf | src/converter/JavaToTypeScriptConverter.js:460-487 | one property per collected entry, in order |
| Declarations.LastAccepted | src/converter/JavaToTypeScriptConverter.js:389-401 | the result is some accepted candidate; it is absent exactly when no candidate is accepted |
| Declarations.ExtractClassName | src/converter/JavaToTypeScriptConverter.js:378-404 | the loop returns the last candidate that is longer than one character, class-shaped and not blocklisted, else `UnknownClass` |
| Declarations.ClassNameSpec | src/converter/JavaToTypeScriptConverter.js:385-403 | the chosen name is always an accepted one, taken from the candidates or `UnknownClass`, and is `UnknownClass` when nothing is accepted |
| Declarations.LastDeclarationWins | src/converter/JavaToTypeScriptConverter.js:395-400 | a later accepted declaration overrides all earlier ones |
| Declarations.RefusedIgnored | src/converter/JavaToTypeScriptConverter.js:395-400 | a refused candidate changes nothing |
| Declarations.OneLetterRefused | src/converter/JavaToTypeScriptConverter.js:396 | a one-letter name is never chosen |
| Declarations.OneLetterPaths | src/converter/JavaToTypeScriptConverter.js:65-69 | the fast path accepts a one-letter class name that `extractClassName` refuses, so the two paths name class `A` differently |
| Emitter.EmitInterface | src/converter/JavaToTypeScriptConverter.js:216-234 | the header, one line per property using the table lookup of its type, and the closing brace |
| Emitter.EmittableLine | src/converter/JavaToTypeScriptConverter.js:220-229 | rule of the emitted line, by definition: an optional property with a stable type is written `  name?: type;` whether quoted or not |
| Emitter.EmittedLines | src/converter/JavaToTypeScriptConverter.js:220-230 | for extracted properties the body is exactly the `  name?: type;` lines in order |
| Emitter.PathsAgreeOnPlainField | src/converter/JavaToTypeScriptConverter.js:119 | for a field without annotation, the fast path's line equals the full path's line |
| Emitter.SimpleLinesBlank | src/converter/JavaToTypeScriptConverter.js:145-147 | the property text is blank exactly when no field was accepted, so the blank test never drops a field |
| Emitter.SimpleInterfaceComplete | src/converter/JavaToTypeScriptConverter.js:144-150 | the fast path's interface is the header, every accepted line and the closing brace |
| Emitter.ConvertEnumToTypeScript | src/converter/JavaToTypeScriptConverter.js:744-789 | without a body, the parse-failure comment. Otherwise `export enum N {`, the placeholder comment when no constant is valid, else `  NAME = "value"` lines separated by commas, then `}` |
| Emitter.Members | src/converter/JavaToTypeScriptConverter.js:782 | one `NAME = "value"` member per enum value, in order |
| Emitter.EnumBody | src/converter/JavaToTypeScriptConverter.js:780-783 | the value lines are the members joined by `,` and a new line, with no comma after the last |
| Emitter.EnumValuesSpec | src/converter/JavaToTypeScriptConverter.js:761-772 | every kept value is the value of some constant-shaped match (none is invented), every constant-shaped match's value is kept (none is dropped), there are never more values than matches, and exactly as many when every constant is well-formed |
| Emitter.DerivedValueLowerCase | src/converter/JavaToTypeScriptConverter.js:763 | a constant without an argument gets as its value its name lower-cased character by character: the same length, and no upper-case letter |
| Converter.ToInt32 | src/converter/JavaToTypeScriptConverter.js:181-182 | the 32-bit wrap-around always lands in the signed 32-bit range |
| Converter.ToInt32Offset | src/converter/JavaToTypeScriptConverter.js:182 | the wrap-around differs from its input by a multiple of 2^32 |
| Converter.ToInt32Periodic | src/converter/JavaToTypeScriptConverter.js:182 | adding a multiple of 2^32 does not change the wrapped value |
| Converter.HashCode | src/converter/JavaToTypeScriptConverter.js:176-185 | the hash of a text is a signed 32-bit integer |
| Converter.ShiftStep | src/converter/JavaToTypeScriptConverter.js:181-182 | the shift-and-subtract step `(h << 5) - h + c` followed by `& hash` equals `31 * h + c` wrapped to 32 bits |
| Converter.HashExtends | src/converter/JavaToTypeScriptConverter.js:176-185 | two texts with the same hash still collide after the same suffix is appended |
| Converter.PairCollision | src/converter/JavaToTypeScriptConverter.js:179-183 | two-character texts with `31 * a + b == 31 * c + d` hash alike |
| Converter.CacheKeyCollision | src/converter/JavaToTypeScriptConverter.js:160-185 | `"Aa" + w` and `"BB" + w` have the same cache key, so `convert` answers the second from the first one's cache entry |
| Converter.SupertypeReachesInterface | src/converter/JavaToTypeScriptConverter.js:200-218 | a class-shaped supertype is named after ` extends ` in the full path's header. Unless it is built in, it is the last dependency, and on an import-memo miss its import statement is among the interface's imports |
| Converter.RefusedSupertypeDropped | src/converter/JavaToTypeScriptConverter.js:406-424 | a missing or non-class-shaped supertype leaves no `extends` clause in the header and adds no dependency: the dependencies are those of the properties alone |
| Converter.TypesOf | src/converter/JavaToTypeScriptConverter.js:241 | the types read by `findDependencies`, one per property, in order |
| Converter.JavaToTypeScriptConverter.constructor | src/converter/JavaToTypeScriptConverter.js:2-39 | both memo tables start empty |
| Converter.JavaToTypeScriptConverter.GenerateCacheKey | src/converter/JavaToTypeScriptConverter.js:176-185 | the loop computes the 32-bit string hash, a signed 32-bit integer |
| Converter.JavaToTypeScriptConverter.GenerateSmartImports | src/converter/JavaToTypeScriptConverter.js:274-342 | on a memo hit, the stored statements with the table unchanged; on a miss, the computed statements, newly stored under the dependencies-and-hint key; the result cache untouched |
| Converter.JavaToTypeScriptConverter.ConvertToInterface | src/converter/JavaToTypeScriptConverter.js:187-235 | the interface has the last valid name, the valid supertype, imports for the distinct property dependencies plus a non-built-in supertype, and the extracted properties. The import table changes only by that memo step |
| Converter.InterfaceParts | src/converter/JavaToTypeScriptConverter.js:189-203 | the steps before the imports: the last accepted class name, the class-shaped supertype, the extracted properties, and their distinct candidates followed by the supertype unless it is built in |
| Converter.JavaToTypeScriptConverter.Convert | src/converter/JavaToTypeScriptConverter.js:153-174 | short sources give null and change nothing. A cached key returns the stored text. Otherwise the full interface is returned and stored under its key, keeping every cached text longer than 20 characters after trimming |
| Converter.FullTextLong | src/converter/JavaToTypeScriptConverter.js:169-171 | every full-path interface is longer than 20 characters after trimming, so `convert` always caches a miss |
| Converter.JavaToTypeScriptConverter.ConvertSimple | src/converter/JavaToTypeScriptConverter.js:41-151 | null for short sources, then the skip, no-declaration and invalid-name comments, the enum text for enums, and otherwise the interface of the accepted fields. Imports appear only with a truthy hint and a dependency. The import table changes only when the field loop is reached |
| Converter.BuildSimpleInterface | src/converter/JavaToTypeScriptConverter.js:144-150 | the header, the property text when not blank, and the closing brace |

## Left out

- Regular-expression matching and `removeComments` (lines 426-434) are not modelled. What each pattern finds is an input to the model. This covers the lookbehind of the plain-field pattern, the comment and constant stripping, and the `[^}]+` enum-body capture. Nothing here proves what those patterns do or do not match.
- Only `extractClassName` and `extractExtendsClass` strip comments (lines 380 and 408). `extractProperties` reads the raw source (lines 195 and 436-444), so a commented-out field such as `// private String x;` still gets an `x?:` line from `convert`. In the model, `Converter.FullSource` takes `candidates` and `extendsName` from the stripped text and `annotated` and `plain` from the raw text. Since matches are inputs, the model does not show this effect; it is only recorded here.
- The HTTP server in `src/index.js` is not part of this model. It is an Express application with file uploads, several conversion and import-update routes, and a listening socket, and it calls only `convertSimple`.
- The legacy helpers `convertImports`, `convertPackage`, `convertClassDeclarations`, `convertMethods`, `convertVariables`, `convertDataTypes`, `convertAnnotations`, `convertAccessModifiers`, `convertConstructors`, `convertCollections`, `convertStringConcatenation` and `addTypeScriptImports` (lines 588-694) are not modelled: neither path calls them.
- `customTypes` (line 32) is not modelled: the converter never reads it.
- A null or undefined `javaCode` (the `!javaCode` test at lines 43 and 155) is not modelled. The model takes a string, so only the length gate remains.
- Strings are sequences of Unicode scalar values, while JavaScript strings are UTF-16 code units. For characters outside the Basic Multilingual Plane, lengths, `charCodeAt` and therefore the hash differ.
- Converter.JavaToTypeScriptConverter.GenerateCacheKey: returns the 32-bit hash as an integer, not its decimal string. `toString` on integers is injective, so the cache behaves the same.
- The table lookups `javaToTsTypeMap[t]` (lines 221 and 550) and `typeLocationMap[dep]` (line 323) are modelled as exact-key maps. In JavaScript, keys such as `constructor` or `toString` would find inherited properties. `isBuiltInType` uses `hasOwnProperty` and is modelled exactly.
- The `originalJavaName` and `jsonPropertyName` fields of a property (lines 464-465, 486) are not modelled: nothing reads them.
- JavaScript `Set` objects passed by reference are modelled as values returned by the callee: `collectTypeDependencies` returns the grown set instead of mutating its argument.
- Converter.JavaToTypeScriptConverter.ConvertToInterface: the two identical branches of the quoted-name test (lines 225-229) are written once.
- Dependencies.CollectListExample and TypeMapper.SplitExample are the only literal examples of the type mapper and the dependency walk. Besides them, only Imports.ImportKeyNullCollision and Converter.CacheKeyCollision mention literal texts. The other properties are stated for all identifiers of a given shape, because unfolding the recursive mapper on literal texts is costly for the verifier.
- The full field pass accepts any Java field name matching `[a-zA-Z_][a-zA-Z0-9_]*` with no further validation (lines 470, 477). The model follows that code rather than a lowercase-only rule.
