/**
 * The declaration-level decisions: which class or enum name the converter
 * picks, which supertype it records, and the checks with which the fast
 * path refuses a source before looking at its fields.
 *
 * As elsewhere, the regular-expression matches are inputs: the candidate
 * names of all declaration matches, the captured supertype of the first
 * `extends` match, and so on.
 */
module Declarations {
  import opened Options
  import opened Text

  /** Names that look like class names but are refused as such. */
  const Blocklist: seq<string> := ["Class", "Interface", "Abstract", "Final", "Public", "Private", "Protected", "Static"]

  /** The name used when no declaration qualifies. */
  const UnknownClass: string := "UnknownClass"

  /** A candidate `extractClassName` accepts: longer than one character, class-shaped, not in the blocklist. */
  predicate AcceptedName(c: string) {
    |c| > 1 && IsClassName(c) && c !in Blocklist
  }

  /** The last accepted candidate, if any. */
  function LastAccepted(candidates: seq<string>): (r: Option<string>)
    ensures r.Some? ==> r.value in candidates && AcceptedName(r.value)
    ensures r.None? <==> forall c | c in candidates :: !AcceptedName(c)
  {
    if candidates == [] then None
    else
      var c := candidates[|candidates| - 1];
      if AcceptedName(c) then Some(c)
      else
        var r := LastAccepted(candidates[..|candidates| - 1]);
        assert forall x | x in candidates :: x in candidates[..|candidates| - 1] || x == c;
        r
  }

  /** The name `extractClassName` returns. */
  function ClassNameOf(candidates: seq<string>): string {
    LastAccepted(candidates).GetOr(UnknownClass)
  }

  /** `extractClassName`: scans every declaration match and keeps the last accepted name. */
  method ExtractClassName(candidates: seq<string>) returns (name: string)
    ensures name == ClassNameOf(candidates)
  {
    var className: Option<string> := None;
    for i := 0 to |candidates|
      invariant className == LastAccepted(candidates[..i])
    {
      var candidateName := candidates[i];
      assert candidates[..i + 1][..i] == candidates[..i];
      if |candidateName| > 1 && IsClassName(candidateName) && candidateName !in Blocklist {
        className := Some(candidateName);
      }
    }
    assert candidates[..|candidates|] == candidates;
    name := if className.Some? then className.value else UnknownClass;
  }

  /**
   * The chosen name is always an accepted one: either a candidate no later
   * candidate overrides, or the placeholder when none qualifies.
   */
  lemma {:induction false} ClassNameSpec(candidates: seq<string>)
    ensures AcceptedName(ClassNameOf(candidates))
    ensures ClassNameOf(candidates) in candidates || ClassNameOf(candidates) == UnknownClass
    ensures (forall c | c in candidates :: !AcceptedName(c)) ==> ClassNameOf(candidates) == UnknownClass
  {
    assert UnknownClass[0] == 'U';
    assert forall i | 1 <= i < |UnknownClass| :: IsWordChar(UnknownClass[i]);
  }

  /** A later accepted declaration overrides earlier ones (a nested class wins over its outer class). */
  lemma LastDeclarationWins(candidates: seq<string>, c: string)
    requires AcceptedName(c)
    ensures ClassNameOf(candidates + [c]) == c
  {
  }

  /** A refused candidate at the end changes nothing. */
  lemma RefusedIgnored(candidates: seq<string>, c: string)
    requires !AcceptedName(c)
    ensures ClassNameOf(candidates + [c]) == ClassNameOf(candidates)
  {
    assert (candidates + [c])[..|candidates|] == candidates;
  }

  /** A one-letter name is never chosen, although the pattern accepts it. */
  lemma OneLetterRefused(candidates: seq<string>, c: char)
    ensures ClassNameOf(candidates + [[c]]) == ClassNameOf(candidates)
  {
    RefusedIgnored(candidates, [c]);
  }

  /**
   * `extractExtendsClass`: the captured supertype of the first `extends`
   * match, if it is class-shaped. What becomes of it in the interface is
   * stated by `Converter.SupertypeReachesInterface` and
   * `Converter.RefusedSupertypeDropped`.
   */
  function ExtendsClass(captured: Option<string>): Option<string> {
    if captured.Some? && IsClassName(captured.value) then captured else None
  }

  /** The sources the fast path refuses outright: entry points, tests and exception classes. */
  predicate QuickSkip(javaCode: string) {
    Contains(javaCode, "public static void main") || Contains(javaCode, "@Test") || Contains(javaCode, "extends Exception")
  }

  /** The fast path's name check of the first declaration it finds. */
  predicate ValidDeclName(className: string) {
    className !in Blocklist && IsClassName(className)
  }

  /**
   * The fast path accepts one-letter names that `extractClassName`
   * refuses, so the two paths name a class `A` differently.
   */
  lemma OneLetterPaths(c: char)
    requires IsUpper(c)
    ensures ValidDeclName([c])
    ensures !AcceptedName([c])
    ensures ClassNameOf([[c]]) == UnknownClass
  {
    OneLetterRefused([], c);
  }
}
