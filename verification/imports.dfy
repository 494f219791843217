/**
 * The import resolver: the fixed registry of where shared types live,
 * `calculateRelativePath`, and the import statements `generateSmartImports`
 * writes (its memoisation lives with the converter's `importCache` field).
 */
module Imports {
  import opened Options
  import opened Text
  import opened TypeMapper
  import opened Dependencies

  /** The static name-to-location registry of `generateSmartImports`. */
  const Registry: map<string, string> := map[
    "AbstractEntity" := "utils/base/AbstractEntity",
    "AbstractEntityRef" := "utils/base/AbstractEntityRef",
    "AbstractCatalogEntity" := "utils/base/AbstractCatalogEntity",
    "EntityRef" := "utils/base/EntityRef",
    "TimePeriod" := "utils/base/TimePeriod",
    "Money" := "utils/base/Money",
    "Quantity" := "utils/base/Quantity",
    "Duration" := "utils/base/Duration",
    "Note" := "utils/base/Note",
    "RelatedParty" := "utils/base/RelatedParty",
    "Attachment" := "utils/base/Attachment",
    "Event" := "utils/base/Event",
    "Characteristic" := "entity/common/Characteristic",
    "CharacteristicSpecification" := "entity/common/CharacteristicSpecification",
    "CharacteristicValueSpecification" := "entity/common/CharacteristicValueSpecification",
    "Association" := "entity/common/Association",
    "AssociationRole" := "entity/common/AssociationRole",
    "EntitySpecification" := "entity/common/EntitySpecification",
    "EntityRelationship" := "entity/common/EntityRelationship",
    "EntityCategory" := "entity/common/EntityCategory",
    "ExternalReference" := "entity/common/ExternalReference",
    "ApplicableTimePeriod" := "entity/common/ApplicableTimePeriod",
    "ContactMedium" := "entity/common/ContactMedium",
    "GeographicAddress" := "entity/common/GeographicAddress",
    "Addressable" := "entity/common/Addressable"
  ]

  /** A location hint is truthy when it is given and not empty. */
  predicate Truthy(path: Option<string>) {
    path.Some? && path.value != []
  }

  // ---------------------------------------------------------------------------
  // calculateRelativePath

  /** The directory part of a path: everything before its last `/`, or nothing. */
  function CurrentDir(path: string): (dir: string)
    ensures '/' in path ==> |dir| < |path| && path[..|dir|] == dir && path[|dir|] == '/' && '/' !in path[|dir| + 1..]
    ensures '/' !in path ==> dir == []
  {
    if '/' in path then path[..LastIndexOf(path, '/')] else []
  }

  /** The number of directory levels of a path: the segments of its directory part. */
  function DirDepth(path: string): nat {
    var dir := CurrentDir(path);
    if dir != [] then |Split(dir, '/')| else 0
  }

  /** `calculateRelativePath` as a value. */
  function RelativePath(current: Option<string>, target: string): string {
    if !Truthy(current) then "./" + target
    else Repeat("../", DirDepth(current.value)) + target
  }

  /** `calculateRelativePath`: one `../` per directory level of the current path, then the target. */
  method CalculateRelativePath(current: Option<string>, target: string) returns (r: string)
    ensures r == RelativePath(current, target)
  {
    if !Truthy(current) {
      return "./" + target;
    }
    var path := current.value;
    var currentDir := if '/' in path then path[..LastIndexOf(path, '/')] else "";
    var currentDepth := if currentDir != "" then |Split(currentDir, '/')| else 0;
    var relativePath := "";
    for i := 0 to currentDepth
      invariant relativePath == Repeat("../", i)
    {
      relativePath := relativePath + "../";
    }
    r := relativePath + target;
  }

  /** Counting `/` characters split across a concatenation. */
  lemma {:induction false} CountAppend(a: string, b: string, c: char)
    ensures Count(a + b, c) == Count(a, c) + Count(b, c)
  {
    if a == [] {
      assert a + b == b;
    } else {
      assert (a + b)[0] == a[0] && (a + b)[1..] == a[1..] + b;
      CountAppend(a[1..], b, c);
    }
  }

  /**
   * The depth is the number of `/` in the path, except that a path whose
   * only `/` is its first character has depth 0.
   */
  lemma DirDepthCountsSlashes(path: string)
    ensures DirDepth(path) == if LastIndexOf(path, '/') == 0 then 0 else Count(path, '/')
  {
    var k := LastIndexOf(path, '/');
    if k > 0 {
      var dir := path[..k];
      assert path == dir + path[k..];
      assert path[k..] == ['/'] + path[k + 1..];
      var tail := path[k + 1..];
      assert '/' !in tail by {
        forall j | 0 <= j < |tail| ensures tail[j] != '/' {
          assert tail[j] == path[k + 1 + j];
        }
      }
      CountAppend(dir, path[k..], '/');
      CountAppend(['/'], path[k + 1..], '/');
    }
  }

  /** A current path without a directory part gives the target itself, with no `./` in front. */
  lemma TopLevelPathIsBare(path: string, target: string)
    requires path != [] && '/' !in path
    ensures RelativePath(Some(path), target) == target
  {
    assert Repeat("../", 0) == [];
  }

  /** Climbing `n` levels: `n` copies of `../` in front of the target. */
  lemma RelativePathClimbs(path: string, target: string)
    requires path != []
    ensures RelativePath(Some(path), target) == Repeat("../", DirDepth(path)) + target
    ensures |RelativePath(Some(path), target)| == 3 * DirDepth(path) + |target|
  {
  }

  /**
   * A current path `a/b/c` climbs two levels: `entity/customize/Foo` with
   * target `utils/base/AbstractEntity` gives `../../utils/base/AbstractEntity`.
   */
  lemma RelativePathTwoLevels(a: string, b: string, c: string, target: string)
    requires '/' !in a && '/' !in b && '/' !in c && a != []
    ensures RelativePath(Some(a + "/" + b + "/" + c), target) == "../../" + target
  {
    TwoLevels(a, b, c);
    RelativePathClimbs(a + "/" + b + "/" + c, target);
    assert Repeat("../", 2) == "../../";
  }

  /** A path `a/b/c` whose parts hold no `/` sits two levels deep. */
  lemma TwoLevels(a: string, b: string, c: string)
    requires '/' !in a && '/' !in b && '/' !in c && a != []
    ensures DirDepth(a + "/" + b + "/" + c) == 2
  {
    var p := a + "/" + b + "/" + c;
    var k := |a| + 1 + |b|;
    assert p[k] == '/';
    assert forall j | k < j < |p| :: p[j] == c[j - k - 1];
    assert LastIndexOf(p, '/') == k;
    assert p[..k] == a + "/" + b;
    assert forall j | 0 <= j < k :: p[j] == (a + "/" + b)[j];
    DirDepthCountsSlashes(p);
    CountAppend(a + "/" + b + "/", c, '/');
    CountAppend(a + "/" + b, "/", '/');
    CountAppend(a + "/", b, '/');
    CountAppend(a, "/", '/');
  }

  // ---------------------------------------------------------------------------
  // generateSmartImports

  /** Where the import of `dep` points. */
  function ImportPath(dep: string, current: Option<string>): string {
    if dep in Registry && Truthy(current) then RelativePath(current, Registry[dep])
    else "./" + dep
  }

  /** One import statement. */
  function ImportLine(dep: string, path: string): string {
    "import { " + dep + " } from '" + path + "';"
  }

  /** The import statements for `deps`: one per dependency that is not built in, in order. */
  function ImportLines(deps: seq<string>, current: Option<string>): seq<string> {
    if deps == [] then []
    else
      var dep := deps[|deps| - 1];
      ImportLines(deps[..|deps| - 1], current)
        + (if IsBuiltInType(dep) then [] else [ImportLine(dep, ImportPath(dep, current))])
  }

  /** The memo key: the dependencies joined with `,`, then `_`, then the path or `null`. */
  function ImportKey(deps: seq<string>, current: Option<string>): string {
    Join(deps, ",") + "_" + (match current case None => "null" case Some(p) => p)
  }

  /** Exactly one statement per dependency that is not built in, in input order, each pointing at its path. */
  lemma {:induction false} ImportLinesShape(deps: seq<string>, current: Option<string>)
    ensures |ImportLines(deps, current)| == |CustomTypes(deps)|
    ensures forall i | 0 <= i < |CustomTypes(deps)| ::
      ImportLines(deps, current)[i]
        == ImportLine(CustomTypes(deps)[i], ImportPath(CustomTypes(deps)[i], current))
  {
    if deps != [] {
      ImportLinesShape(deps[..|deps| - 1], current);
    }
  }

  /** A registered dependency with a location hint is imported by relative path; anything else from `./`. */
  lemma ImportPathRules(dep: string, current: Option<string>)
    ensures dep in Registry && Truthy(current) ==>
      ImportPath(dep, current) == Repeat("../", DirDepth(current.value)) + Registry[dep]
    ensures !(dep in Registry && Truthy(current)) ==> ImportPath(dep, current) == "./" + dep
  {
  }

  /** No registered name ends in `ed`, so no text ending in `undefined` is registered. */
  lemma RegistryKeysEnding()
    ensures forall k | k in Registry :: 2 <= |k| && (k[|k| - 2] != 'e' || k[|k| - 1] != 'd')
  {
  }

  /** A single unregistered dependency that is not built in is imported from `./` whatever the hint. */
  lemma SingleUnregistered(dep: string, current: Option<string>)
    requires !IsBuiltInType(dep) && dep !in Registry
    ensures ImportLines([dep], current) == [ImportLine(dep, "./" + dep)]
  {
    assert [dep][..0] == [];
  }

  /**
   * The import an `Optional<X>` property brings into the full path's
   * interface, when `X` maps to a type without `<`: the whole mapped text
   * `X' | undefined` is imported from `./X' | undefined`, whatever the
   * location hint.
   */
  lemma OptionalImportStatement(x: string, current: Option<string>)
    requires x != [] && NoLineTerminator(x) && '<' !in MapType(x)
    ensures ImportLines(Candidates(MapType("Optional<" + x + ">")), current)
      == [ImportLine(MapType(x) + " | undefined", "./" + (MapType(x) + " | undefined"))]
  {
    var q := MapType(x) + " | undefined";
    UnregisteredUndefined(MapType(x));
    calc {
      ImportLines(Candidates(MapType("Optional<" + x + ">")), current);
      == { OptionalTypeQuirk(x); }
      ImportLines([q], current);
      == { SingleUnregistered(q, current); }
      [ImportLine(q, "./" + q)];
    }
  }

  /** A text ending in ` | undefined` is neither built in nor registered. */
  lemma UnregisteredUndefined(t: string)
    ensures !IsBuiltInType(t + " | undefined") && t + " | undefined" !in Registry
  {
    var q := t + " | undefined";
    assert q[|t|] == ' ';
    NotBuiltIn(q, |t|);
    RegistryKeysEnding();
    assert q[|q| - 2] == 'e' && q[|q| - 1] == 'd';
  }

  /**
   * The memo key cannot tell a missing location from the location `null`, so
   * the two calls share a cache entry although their statements differ.
   */
  lemma ImportKeyNullCollision()
    ensures ImportKey(["Money"], None) == ImportKey(["Money"], Some("null"))
    ensures ImportPath("Money", None) == "./Money"
    ensures ImportPath("Money", Some("null")) == "utils/base/Money"
  {
    TopLevelPathIsBare("null", "utils/base/Money");
  }

}
