/** Character classes and the pool-size arithmetic shared by the JavaScript
    estimator (main.js) and the native one (entropy.c). */
module CharClass {

  /** The four classes both estimators recognise. Every character falls in
      exactly one of them. */
  datatype Class = Lower | Upper | Digit | Symbol

  /** What a class present in the password adds to the pool; 32 is the
      approximate size of the printable-symbol space. */
  function ClassSize(k: Class): nat {
    match k
    case Lower => 26
    case Upper => 26
    case Digit => 10
    case Symbol => 32
  }

  /** The pool size of a set of present classes: the sum of their sizes. */
  function PoolSize(ks: set<Class>): nat {
    (if Lower in ks then ClassSize(Lower) else 0)
    + (if Upper in ks then ClassSize(Upper) else 0)
    + (if Digit in ks then ClassSize(Digit) else 0)
    + (if Symbol in ks then ClassSize(Symbol) else 0)
  }

  /** PoolSize really is a sum over the set: nothing for no class, and each
      class added contributes exactly its own size. */
  lemma PoolSizeIsSum(ks: set<Class>, k: Class)
    requires k !in ks
    ensures PoolSize({}) == 0
    ensures PoolSize(ks + {k}) == PoolSize(ks) + ClassSize(k)
  {
  }

  /** Any non-empty set of classes gives a pool in [10, 94], so a floor of 1
      never changes it; only the empty set gives 0. */
  lemma PoolSizeBounds(ks: set<Class>)
    ensures PoolSize(ks) <= 94
    ensures ks != {} ==> 10 <= PoolSize(ks)
    ensures PoolSize(ks) == 0 <==> ks == {}
  {
    if ks != {} {
      var k :| k in ks;
      assert PoolSize(ks) >= ClassSize(k);
    }
  }

  /** The set of classes the elements of s fall in, for a classification c. */
  function ClassesOf<T>(s: seq<T>, c: T -> Class): set<Class> {
    set i | 0 <= i < |s| :: c(s[i])
  }

  /** A non-empty sequence has at least one class present. */
  lemma ClassesOfNonEmpty<T>(s: seq<T>, c: T -> Class)
    requires |s| > 0
    ensures c(s[0]) in ClassesOf(s, c)
    ensures 10 <= PoolSize(ClassesOf(s, c)) <= 94
  {
    PoolSizeBounds(ClassesOf(s, c));
  }

  /** Appending one element adds its class and nothing else. */
  lemma ClassesOfSnoc<T>(s: seq<T>, x: T, c: T -> Class)
    ensures ClassesOf(s + [x], c) == ClassesOf(s, c) + {c(x)}
  {
    var t := s + [x];
    forall k | k in ClassesOf(t, c) ensures k in ClassesOf(s, c) + {c(x)} {
      var i :| 0 <= i < |t| && c(t[i]) == k;
      if i < |s| {
        assert t[i] == s[i];
      }
    }
    forall k | k in ClassesOf(s, c) ensures k in ClassesOf(t, c) {
      var i :| 0 <= i < |s| && c(s[i]) == k;
      assert t[i] == s[i];
    }
    assert t[|s|] == x;
  }

  /** The classes present depend only on which elements occur, not on their
      order: two permutations of each other have the same classes. */
  lemma ClassesOfPermutation<T>(s: seq<T>, t: seq<T>, c: T -> Class)
    requires multiset(s) == multiset(t)
    ensures ClassesOf(s, c) == ClassesOf(t, c)
  {
    forall k | k in ClassesOf(s, c) ensures k in ClassesOf(t, c) {
      var i :| 0 <= i < |s| && c(s[i]) == k;
      assert s[i] in multiset(t);
      var j :| 0 <= j < |t| && t[j] == s[i];
    }
    forall k | k in ClassesOf(t, c) ensures k in ClassesOf(s, c) {
      var j :| 0 <= j < |t| && c(t[j]) == k;
      assert t[j] in multiset(s);
      var i :| 0 <= i < |s| && s[i] == t[j];
    }
  }

  /** Classification of a character the way main.js's four regular
      expressions see it: `[a-z]`, `[A-Z]`, `[0-9]`, and everything else
      (`[^A-Za-z0-9]`). A character outside the Basic Multilingual Plane is
      two surrogate code units to a non-Unicode regular expression, and both
      fall in `[^A-Za-z0-9]`, which is also where this puts it. */
  function ClassOf(ch: char): Class {
    if 'a' <= ch <= 'z' then Lower
    else if 'A' <= ch <= 'Z' then Upper
    else if '0' <= ch <= '9' then Digit
    else Symbol
  }
}
