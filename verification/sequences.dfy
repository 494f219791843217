/**
 * Keep-first de-duplication. The converter de-duplicates in three places by
 * the same rule (the first element with a given key stays, later ones are
 * dropped): JavaScript `Set` insertion order, the Java field names already
 * seen, and the `name:type` keys of `removeDuplicateProperties`.
 */
module Sequences {

  predicate NoDups<T(==)>(s: seq<T>) {
    forall i, j | 0 <= i < j < |s| :: s[i] != s[j]
  }

  function Id<T>(x: T): T { x }

  /** The keys of the elements of `s`, in order. */
  function Keys<T, K>(s: seq<T>, key: T -> K): (r: seq<K>)
    ensures |r| == |s|
    ensures forall i | 0 <= i < |s| :: r[i] == key(s[i])
  {
    if s == [] then [] else Keys(s[..|s| - 1], key) + [key(s[|s| - 1])]
  }

  /** The elements of `s` whose key has not occurred before them, in order. */
  function KeepFirst<T, K(==)>(s: seq<T>, key: T -> K): (r: seq<T>)
    ensures |r| <= |s|
  {
    if s == [] then []
    else
      var r := KeepFirst(s[..|s| - 1], key);
      if key(s[|s| - 1]) in Keys(r, key) then r else r + [s[|s| - 1]]
  }

  /** The order of first insertion of a JavaScript `Set` built from `s`. */
  function Distinct<T(==)>(s: seq<T>): seq<T> {
    KeepFirst(s, Id)
  }

  /** The sub-sequence of `s` at the positions where `mask` is true. */
  function Select<T>(s: seq<T>, mask: seq<bool>): seq<T>
    requires |mask| == |s|
  {
    if s == [] then []
    else Select(s[..|s| - 1], mask[..|s| - 1]) + (if mask[|s| - 1] then [s[|s| - 1]] else [])
  }

  /** Position `i` holds the first occurrence of its key. */
  function FirstMask<K(==)>(ks: seq<K>): (m: seq<bool>)
    ensures |m| == |ks|
  {
    seq(|ks|, i requires 0 <= i < |ks| => ks[i] !in ks[..i])
  }

  /** A key survives exactly when it occurs in the input. */
  lemma {:induction false} KeepFirstKeys<T, K>(s: seq<T>, key: T -> K)
    ensures forall k :: k in Keys(KeepFirst(s, key), key) <==> k in Keys(s, key)
  {
    if s != [] {
      var s' := s[..|s| - 1];
      var x := s[|s| - 1];
      KeepFirstKeys(s', key);
      var r := KeepFirst(s', key);
      assert Keys(s, key) == Keys(s', key) + [key(x)];
      if key(x) !in Keys(r, key) {
        assert Keys(r + [x], key) == Keys(r, key) + [key(x)] by {
          assert (r + [x])[..|r|] == r;
        }
      }
    }
  }

  /** The keys of the result are pairwise distinct. */
  lemma {:induction false} KeepFirstNoDups<T, K>(s: seq<T>, key: T -> K)
    ensures NoDups(Keys(KeepFirst(s, key), key))
  {
    if s != [] {
      var s' := s[..|s| - 1];
      var x := s[|s| - 1];
      KeepFirstNoDups(s', key);
      var r := KeepFirst(s', key);
      if key(x) !in Keys(r, key) {
        assert Keys(r + [x], key) == Keys(r, key) + [key(x)] by {
          assert (r + [x])[..|r|] == r;
        }
      }
    }
  }

  /**
   * The reference definition: keep-first selects exactly the positions of
   * first occurrences, so it is order-preserving and the first element with
   * each key wins.
   */
  lemma {:induction false} KeepFirstSelectsFirstOccurrences<T, K>(s: seq<T>, key: T -> K)
    ensures KeepFirst(s, key) == Select(s, FirstMask(Keys(s, key)))
  {
    if s != [] {
      var s' := s[..|s| - 1];
      var x := s[|s| - 1];
      KeepFirstSelectsFirstOccurrences(s', key);
      KeepFirstKeys(s', key);
      var ks := Keys(s, key);
      assert ks == Keys(s', key) + [key(x)];
      var m := FirstMask(ks);
      assert m[..|s'|] == FirstMask(Keys(s', key)) by {
        forall i | 0 <= i < |s'|
          ensures m[..|s'|][i] == FirstMask(Keys(s', key))[i]
        {
          assert ks[..i] == Keys(s', key)[..i];
        }
      }
      assert ks[..|s'|] == Keys(s', key);
    }
  }

  /** Keep-first leaves a sequence with distinct keys as it is. */
  lemma {:induction false} KeepFirstOfDistinctKeys<T, K>(s: seq<T>, key: T -> K)
    requires NoDups(Keys(s, key))
    ensures KeepFirst(s, key) == s
  {
    if s != [] {
      var s' := s[..|s| - 1];
      assert Keys(s', key) == Keys(s, key)[..|s'|];
      KeepFirstOfDistinctKeys(s', key);
      assert key(s[|s| - 1]) !in Keys(s', key) by {
        forall i | 0 <= i < |s'|
          ensures Keys(s', key)[i] != key(s[|s| - 1])
        {
          assert Keys(s', key)[i] == Keys(s, key)[i];
        }
      }
      assert s == s' + [s[|s| - 1]];
    }
  }

  /** De-duplicating a prefix first and then the whole gives the same as de-duplicating the whole. */
  lemma {:induction false} KeepFirstAbsorbs<T, K>(a: seq<T>, t: seq<T>, key: T -> K)
    ensures KeepFirst(KeepFirst(a, key) + t, key) == KeepFirst(a + t, key)
    decreases |t|
  {
    if t == [] {
      assert a + t == a;
      assert KeepFirst(a, key) + t == KeepFirst(a, key);
      KeepFirstNoDups(a, key);
      KeepFirstOfDistinctKeys(KeepFirst(a, key), key);
    } else {
      var t' := t[..|t| - 1];
      KeepFirstAbsorbs(a, t', key);
      assert (KeepFirst(a, key) + t)[..|KeepFirst(a, key) + t| - 1] == KeepFirst(a, key) + t';
      assert (a + t)[..|a + t| - 1] == a + t';
    }
  }

  lemma KeysId<T>(s: seq<T>)
    ensures Keys(s, Id) == s
  {
  }

  /** Inserting one element into a JavaScript `Set`: appended when new, ignored otherwise. */
  lemma DistinctSnoc<T>(s: seq<T>, x: T)
    ensures Distinct(s + [x]) == if x in s then Distinct(s) else Distinct(s) + [x]
  {
    assert (s + [x])[..|s|] == s;
    KeepFirstKeys(s, Id);
    KeysId(s);
    KeysId(Distinct(s));
  }

  /** A `Set` holds exactly the elements inserted into it, each once. */
  lemma DistinctElements<T>(s: seq<T>)
    ensures forall x :: x in Distinct(s) <==> x in s
    ensures NoDups(Distinct(s))
  {
    KeepFirstKeys(s, Id);
    KeepFirstNoDups(s, Id);
    KeysId(s);
    KeysId(Distinct(s));
  }

  /** Spreading a duplicate-free sequence into a `Set` changes nothing. */
  lemma DistinctOfNoDups<T>(s: seq<T>)
    requires NoDups(s)
    ensures Distinct(s) == s
  {
    KeysId(s);
    KeepFirstOfDistinctKeys(s, Id);
  }

  /** Inserting into a `Set` that already holds some elements is inserting after them. */
  lemma DistinctAbsorbs<T>(a: seq<T>, t: seq<T>)
    ensures Distinct(Distinct(a) + t) == Distinct(a + t)
  {
    KeepFirstAbsorbs(a, t, Id);
  }

  /** Inserting elements a `Set` already holds changes nothing. */
  lemma {:induction false} DistinctAppendPresent<T>(s: seq<T>, t: seq<T>)
    requires forall x | x in t :: x in s
    ensures Distinct(s + t) == Distinct(s)
    decreases |t|
  {
    if t == [] {
      assert s + t == s;
    } else {
      var t' := t[..|t| - 1];
      var x := t[|t| - 1];
      assert x in t;
      DistinctAppendPresent(s, t');
      assert s + t == (s + t') + [x];
      DistinctSnoc(s + t', x);
    }
  }

  /** A `Set` never loses an element: what it held comes first, in the same order. */
  lemma {:induction false} DistinctKeepsPrefix<T>(a: seq<T>, t: seq<T>)
    requires NoDups(a)
    ensures |a| <= |Distinct(a + t)| && Distinct(a + t)[..|a|] == a
    decreases |t|
  {
    if t == [] {
      assert a + t == a;
      DistinctOfNoDups(a);
    } else {
      var t' := t[..|t| - 1];
      DistinctKeepsPrefix(a, t');
      assert a + t == (a + t') + [t[|t| - 1]];
      DistinctSnoc(a + t', t[|t| - 1]);
    }
  }

  /** The elements of `s` that satisfy `p`, in order. */
  function Filter<T>(s: seq<T>, p: T -> bool): (r: seq<T>)
    ensures |r| <= |s|
    ensures forall x | x in r :: x in s && p(x)
  {
    if s == [] then []
    else Filter(s[..|s| - 1], p) + (if p(s[|s| - 1]) then [s[|s| - 1]] else [])
  }

  /** Filtering a sequence extended by one element. */
  lemma FilterSnoc<T>(s: seq<T>, x: T, p: T -> bool)
    ensures Filter(s + [x], p) == Filter(s, p) + (if p(x) then [x] else [])
  {
    assert (s + [x])[..|s|] == s;
  }

  /** Keep-first over a sequence extended by one element: kept exactly when its key is new. */
  lemma KeepFirstSnoc<T, K>(s: seq<T>, x: T, key: T -> K)
    ensures KeepFirst(s + [x], key)
      == if key(x) in Keys(s, key) then KeepFirst(s, key) else KeepFirst(s, key) + [x]
  {
    assert (s + [x])[..|s|] == s;
    KeepFirstKeys(s, key);
  }

  /** Keep-first never invents elements. */
  lemma {:induction false} KeepFirstMembers<T, K>(s: seq<T>, key: T -> K)
    ensures forall x | x in KeepFirst(s, key) :: x in s
  {
    if s != [] {
      KeepFirstMembers(s[..|s| - 1], key);
    }
  }

  /** Keep-first over `base` and a filtered sequence extended by one element. */
  lemma KeepFirstFilterSnoc<T, K>(base: seq<T>, s: seq<T>, x: T, p: T -> bool, key: T -> K)
    ensures var r := KeepFirst(base + Filter(s, p), key);
      KeepFirst(base + Filter(s + [x], p), key)
        == if p(x) && key(x) !in Keys(r, key) then r + [x] else r
  {
    FilterSnoc(s, x, p);
    var f := base + Filter(s, p);
    if p(x) {
      assert base + Filter(s + [x], p) == f + [x];
      KeepFirstSnoc(f, x, key);
      KeepFirstKeys(f, key);
    } else {
      assert base + Filter(s + [x], p) == f;
    }
  }

  /** When the keys of `a` are distinct, keep-first over `a + t` starts with all of `a`. */
  lemma {:induction false} KeepFirstKeepsPrefix<T, K>(a: seq<T>, t: seq<T>, key: T -> K)
    requires NoDups(Keys(a, key))
    ensures |a| <= |KeepFirst(a + t, key)| && KeepFirst(a + t, key)[..|a|] == a
    decreases |t|
  {
    if t == [] {
      assert a + t == a;
      KeepFirstOfDistinctKeys(a, key);
    } else {
      var t' := t[..|t| - 1];
      KeepFirstKeepsPrefix(a, t', key);
      assert a + t == (a + t') + [t[|t| - 1]];
      KeepFirstSnoc(a + t', t[|t| - 1], key);
    }
  }

  /**
   * A step of a keep-first loop that tracks the keys it has seen in a set:
   * an element that fails `p`, or whose key was seen, changes nothing.
   */
  lemma SeenSkip<T, K>(base: seq<T>, s: seq<T>, x: T, p: T -> bool, key: T -> K, r: seq<T>, seen: set<K>)
    requires r == KeepFirst(base + Filter(s, p), key)
    requires seen == set k | k in Keys(r, key)
    requires !(p(x) && key(x) !in seen)
    ensures KeepFirst(base + Filter(s + [x], p), key) == r
  {
    KeepFirstFilterSnoc(base, s, x, p, key);
  }

  /** The other step: an element that passes `p` with an unseen key is kept. */
  lemma SeenKeep<T, K>(base: seq<T>, s: seq<T>, x: T, p: T -> bool, key: T -> K, r: seq<T>, seen: set<K>)
    requires r == KeepFirst(base + Filter(s, p), key)
    requires seen == set k | k in Keys(r, key)
    requires p(x) && key(x) !in seen
    ensures KeepFirst(base + Filter(s + [x], p), key) == r + [x]
  {
    KeepFirstFilterSnoc(base, s, x, p, key);
  }

  /** Recording the key of an element appended to the kept ones. */
  lemma SeenAdd<T, K>(x: T, key: T -> K, r: seq<T>, seen: set<K>)
    requires seen == set k | k in Keys(r, key)
    ensures seen + {key(x)} == set k | k in Keys(r + [x], key)
  {
    assert (r + [x])[..|r|] == r;
    assert Keys(r + [x], key) == Keys(r, key) + [key(x)];
  }

  /** A step of a keep-first loop over all elements, tracking the seen keys in a set. */
  lemma KeepFirstSeen<T, K>(s: seq<T>, i: nat, key: T -> K, r: seq<T>, seen: set<K>)
    requires i < |s|
    requires r == KeepFirst(s[..i], key)
    requires seen == set k | k in Keys(r, key)
    ensures KeepFirst(s[..i + 1], key) == if key(s[i]) in seen then r else r + [s[i]]
  {
    assert s[..i + 1] == s[..i] + [s[i]];
    KeepFirstSnoc(s[..i], s[i], key);
    KeepFirstKeys(s[..i], key);
  }

  /** A filtered sequence holds every element that passes the test. */
  lemma {:induction false} FilterKeeps<T>(s: seq<T>, x: T, p: T -> bool)
    requires x in s && p(x)
    ensures x in Filter(s, p)
  {
    if s[|s| - 1] != x {
      assert x in s[..|s| - 1];
      FilterKeeps(s[..|s| - 1], x, p);
    }
  }
}
