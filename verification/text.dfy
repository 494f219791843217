/**
 * String helpers with the semantics of the JavaScript built-ins the converter
 * relies on: `trim`, `endsWith`, `includes`, `split` with a one-character
 * separator, `join`, `lastIndexOf`, `toLowerCase` on ASCII, and the small
 * identifier patterns the converter tests names against.
 */
module Text {

  /** The WhiteSpace and LineTerminator code points of ECMAScript, i.e. what `String.prototype.trim` removes. */
  predicate IsJsSpace(c: char) {
    c == '\t' || c == '\n' || c == '\U{B}' || c == '\U{C}' || c == '\r' || c == ' '
    || c == '\U{A0}' || c == '\U{1680}' || ('\U{2000}' <= c <= '\U{200A}')
    || c == '\U{2028}' || c == '\U{2029}' || c == '\U{202F}' || c == '\U{205F}'
    || c == '\U{3000}' || c == '\U{FEFF}'
  }

  /** The characters the regular-expression `.` does not match without the `s` flag. */
  predicate IsLineTerminator(c: char) {
    c == '\n' || c == '\r' || c == '\U{2028}' || c == '\U{2029}'
  }

  /** Removes leading white space. */
  function TrimStart(s: string): (r: string)
    ensures |r| <= |s|
    ensures r == [] || !IsJsSpace(r[0])
  {
    if s != [] && IsJsSpace(s[0]) then TrimStart(s[1..]) else s
  }

  /** Removes trailing white space. */
  function TrimEnd(s: string): (r: string)
    ensures |r| <= |s|
    ensures r == [] || !IsJsSpace(r[|r| - 1])
  {
    if s != [] && IsJsSpace(s[|s| - 1]) then TrimEnd(s[..|s| - 1]) else s
  }

  /** `TrimStart` keeps a suffix of `s` and removes only white space. */
  lemma {:induction false} TrimStartSuffix(s: string)
    ensures TrimStart(s) == s[|s| - |TrimStart(s)|..]
    ensures forall i | 0 <= i < |s| - |TrimStart(s)| :: IsJsSpace(s[i])
    decreases |s|
  {
    if s != [] && IsJsSpace(s[0]) {
      TrimStartSuffix(s[1..]);
      assert s[1..][|s| - 1 - |TrimStart(s[1..])|..] == s[|s| - |TrimStart(s)|..];
      forall i | 0 <= i < |s| - |TrimStart(s)|
        ensures IsJsSpace(s[i])
      {
        if i > 0 {
          assert s[i] == s[1..][i - 1];
        }
      }
    }
  }

  /** `TrimEnd` keeps a prefix of `s` and removes only white space. */
  lemma {:induction false} TrimEndPrefix(s: string)
    ensures TrimEnd(s) == s[..|TrimEnd(s)|]
    ensures forall i | |TrimEnd(s)| <= i < |s| :: IsJsSpace(s[i])
    decreases |s|
  {
    if s != [] && IsJsSpace(s[|s| - 1]) {
      var p := s[..|s| - 1];
      TrimEndPrefix(p);
      assert p[..|TrimEnd(p)|] == s[..|TrimEnd(s)|];
      forall i | |TrimEnd(s)| <= i < |s|
        ensures IsJsSpace(s[i])
      {
        if i < |s| - 1 {
          assert s[i] == p[i];
        }
      }
    }
  }

  /** `String.prototype.trim`: a contiguous piece of `s` that neither starts nor ends with white space. */
  function Trim(s: string): (r: string)
    ensures |r| <= |s|
    ensures r == [] || (!IsJsSpace(r[0]) && !IsJsSpace(r[|r| - 1]))
  {
    TrimEndPrefix(TrimStart(s));
    TrimEnd(TrimStart(s))
  }

  /** A string that starts and ends with a non-space character is its own trim. */
  lemma TrimClean(s: string)
    requires s == [] || (!IsJsSpace(s[0]) && !IsJsSpace(s[|s| - 1]))
    ensures TrimStart(s) == s && TrimEnd(s) == s && Trim(s) == s
  {
  }

  /** Text ending in a non-space character trims to something non-empty. */
  lemma TrimNonBlank(s: string)
    requires s != [] && !IsJsSpace(s[|s| - 1])
    ensures Trim(s) != []
  {
    var t := TrimStart(s);
    TrimStartSuffix(s);
    assert !IsJsSpace(s[|s| - 1]);
    assert t != [];
    assert t[|t| - 1] == s[|s| - 1];
    TrimClean([t[|t| - 1]]);
    assert TrimEnd(t) == t;
  }

  /** Text holding a non-space character anywhere trims to something non-empty. */
  lemma TrimKeepsNonSpace(s: string, i: nat)
    requires i < |s| && !IsJsSpace(s[i])
    ensures Trim(s) != []
  {
    TrimStartSuffix(s);
    var t := TrimStart(s);
    var k := |s| - |t|;
    assert k <= i;
    assert t[i - k] == s[i];
    TrimEndPrefix(t);
    assert |TrimEnd(t)| > i - k;
  }

  lemma TrimIdempotent(s: string)
    ensures Trim(Trim(s)) == Trim(s)
  {
    TrimClean(Trim(s));
  }

  /** Trimming only the front first does not change the full trim. */
  lemma TrimAfterTrimStart(s: string)
    ensures Trim(TrimStart(s)) == Trim(s)
  {
    var t := TrimStart(s);
    assert t == [] || !IsJsSpace(t[0]);
    assert TrimStart(t) == t;
  }

  /** Text that begins with a non-space character shields everything before it from `TrimStart`. */
  lemma {:induction false} TrimStartAppend(a: string, q: string)
    requires q != [] && !IsJsSpace(q[0])
    ensures TrimStart(a + q) == TrimStart(a) + q
    decreases |a|
  {
    if a == [] {
      assert a + q == q;
    } else if IsJsSpace(a[0]) {
      assert (a + q)[1..] == a[1..] + q;
      TrimStartAppend(a[1..], q);
    } else {
      assert (a + q)[0] == a[0];
    }
  }

  /** Text that ends with a non-space character shields everything after it from `TrimEnd`. */
  lemma {:induction false} TrimEndPrepend(p: string, a: string)
    requires p != [] && !IsJsSpace(p[|p| - 1])
    ensures TrimEnd(p + a) == p + TrimEnd(a)
    decreases |a|
  {
    if a == [] {
      assert p + a == p;
    } else if IsJsSpace(a[|a| - 1]) {
      assert (p + a)[..|p + a| - 1] == p + a[..|a| - 1];
      TrimEndPrepend(p, a[..|a| - 1]);
    } else {
      assert (p + a)[|p + a| - 1] == a[|a| - 1];
    }
  }

  /** `Trim(e + q)` for a suffix `q` that starts and ends with non-space characters. */
  lemma TrimWithSuffix(e: string, q: string)
    requires q != [] && !IsJsSpace(q[0]) && !IsJsSpace(q[|q| - 1])
    ensures Trim(e + q) == TrimStart(e) + q
  {
    TrimStartAppend(e, q);
    var t := TrimStart(e) + q;
    assert t[|t| - 1] == q[|q| - 1];
    assert TrimEnd(t) == t;
  }

  predicate StartsWith(s: string, prefix: string) {
    |prefix| <= |s| && s[..|prefix|] == prefix
  }

  predicate EndsWith(s: string, suffix: string) {
    |suffix| <= |s| && s[|s| - |suffix|..] == suffix
  }

  /** `String.prototype.includes`. */
  predicate Contains(s: string, sub: string)
    decreases |s|
  {
    StartsWith(s, sub) || (s != [] && Contains(s[1..], sub))
  }

  /** The number of occurrences of `c` in `s`. */
  function Count(s: string, c: char): (n: nat)
    ensures n <= |s|
    ensures n == 0 <==> c !in s
  {
    if s == [] then 0 else (if s[0] == c then 1 else 0) + Count(s[1..], c)
  }

  /** `String.prototype.split` with a one-character separator. */
  function Split(s: string, c: char): (r: seq<string>)
    ensures |r| == Count(s, c) + 1
    ensures forall p | p in r :: |p| <= |s| && c !in p
    ensures c in s ==> forall p | p in r :: |p| < |s|
  {
    if s == [] then [[]]
    else
      var rest := Split(s[1..], c);
      if s[0] == c then [[]] + rest
      else
        assert rest[0] in rest;
        [[s[0]] + rest[0]] + rest[1..]
  }

  /** `Array.prototype.join`. */
  function Join(parts: seq<string>, sep: string): string {
    if parts == [] then []
    else if |parts| == 1 then parts[0]
    else parts[0] + sep + Join(parts[1..], sep)
  }

  /** Joining the pieces of a split with the separator gives back the original text. */
  lemma {:induction false} JoinSplit(s: string, c: char)
    ensures Join(Split(s, c), [c]) == s
  {
    if s != [] {
      JoinSplit(s[1..], c);
      var rest := Split(s[1..], c);
      if s[0] == c {
        assert Split(s, c) == [[]] + rest;
        assert Split(s, c)[1..] == rest;
      } else {
        assert Split(s, c) == [[s[0]] + rest[0]] + rest[1..];
        if |rest| > 1 {
          assert Split(s, c)[1..] == rest[1..];
        }
      }
    }
  }

  /** `String.prototype.indexOf` for one character: -1 when absent. */
  function IndexOf(s: string, c: char): (r: int)
    ensures -1 <= r < |s|
    ensures r >= 0 ==> s[r] == c && c !in s[..r]
    ensures r == -1 <==> c !in s
  {
    if s == [] then -1
    else if s[0] == c then 0
    else
      var k := IndexOf(s[1..], c);
      if k == -1 then -1
      else
        assert s[..k + 1] == [s[0]] + s[1..][..k];
        k + 1
  }

  /** `String.prototype.lastIndexOf` for one character: -1 when absent. */
  function LastIndexOf(s: string, c: char): (r: int)
    ensures -1 <= r < |s|
    ensures r >= 0 ==> s[r] == c
    ensures forall j | r < j < |s| :: s[j] != c
  {
    if s == [] then -1
    else if s[|s| - 1] == c then |s| - 1
    else LastIndexOf(s[..|s| - 1], c)
  }

  /** `s` written `n` times in a row. */
  function Repeat(s: string, n: nat): (r: string)
    ensures |r| == n * |s|
  {
    if n == 0 then [] else Repeat(s, n - 1) + s
  }

  function LowerChar(c: char): char {
    if 'A' <= c <= 'Z' then (c as int - 'A' as int + 'a' as int) as char else c
  }

  /** `String.prototype.toLowerCase`, exact on ASCII text. */
  function ToLower(s: string): (r: string)
    ensures |r| == |s|
    ensures forall i | 0 <= i < |s| :: r[i] == LowerChar(s[i])
  {
    if s == [] then [] else [LowerChar(s[0])] + ToLower(s[1..])
  }

  predicate IsUpper(c: char) { 'A' <= c <= 'Z' }
  predicate IsLower(c: char) { 'a' <= c <= 'z' }
  predicate IsDigit(c: char) { '0' <= c <= '9' }

  /** The class `[A-Za-z0-9_]`, i.e. the regular-expression `\w`. */
  predicate IsWordChar(c: char) { IsUpper(c) || IsLower(c) || IsDigit(c) || c == '_' }

  /** `^[A-Z][a-zA-Z0-9_]*$`: the pattern a class, enum or supertype name must match. */
  predicate IsClassName(s: string) {
    |s| > 0 && IsUpper(s[0]) && forall i | 1 <= i < |s| :: IsWordChar(s[i])
  }

  /** `^[a-z][a-zA-Z0-9_]*$`: the pattern the fast path demands of a field name. */
  predicate IsFieldName(s: string) {
    |s| > 0 && IsLower(s[0]) && forall i | 1 <= i < |s| :: IsWordChar(s[i])
  }

  /** `^[A-Z_][A-Z0-9_]*$`: the pattern of an enum constant. */
  predicate IsConstName(s: string) {
    |s| > 0 && (IsUpper(s[0]) || s[0] == '_')
    && forall i | 1 <= i < |s| :: IsUpper(s[i]) || IsDigit(s[i]) || s[i] == '_'
  }
}
