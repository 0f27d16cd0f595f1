/** The JavaScript strength estimators of main.js: the charset-pool model,
    the Shannon model and their combination.

    A password is a Dafny `string`, a sequence of Unicode code points.
    JavaScript's `length` counts UTF-16 code units instead (JsLength), and
    `for (let ch of password)` visits code points; the two differ exactly on
    characters outside the Basic Multilingual Plane. `Math.log2` is the
    parameter `log2`: every contract here holds for any function in its
    place, so nothing depends on its floating-point values. */
module Strength {
  import opened CharClass

  /** UTF-16 code units a code point occupies. */
  function CodeUnits(ch: char): nat {
    if ch as int < 0x1_0000 then 1 else 2
  }

  /** JavaScript's `password.length`: the number of UTF-16 code units. */
  function JsLength(s: string): (n: nat)
    ensures |s| <= n <= 2 * |s|
    ensures n == 0 <==> s == []
  {
    if s == [] then 0 else JsLength(s[..|s| - 1]) + CodeUnits(s[|s| - 1])
  }

  /** `length` and the number of code points agree exactly when no character
      lies outside the Basic Multilingual Plane. */
  lemma {:induction false} JsLengthBmp(s: string)
    ensures JsLength(s) == |s| <==> forall i | 0 <= i < |s| :: s[i] as int < 0x1_0000
  {
    if s != [] {
      var p := s[..|s| - 1];
      JsLengthBmp(p);
      assert forall i | 0 <= i < |p| :: p[i] == s[i];
      if JsLength(s) == |s| {
        assert JsLength(p) == |p| && CodeUnits(s[|s| - 1]) == 1;
      }
    }
  }

  // ---------------------------------------------------------------------
  // Charset-pool model (charsetPoolEntropy)

  /** Pool-model bits: nothing for the empty password, otherwise the length
      times log2 of the summed sizes of the classes present. */
  function PoolBits(s: string, log2: real -> real): real {
    if |s| == 0 then 0.0
    else JsLength(s) as real * log2(PoolSize(ClassesOf(s, ClassOf)) as real)
  }

  /** For a non-empty password the pool is in [10, 94]. */
  lemma PoolOfPassword(s: string)
    requires |s| > 0
    ensures 10 <= PoolSize(ClassesOf(s, ClassOf)) <= 94
  {
    ClassesOfNonEmpty(s, ClassOf);
  }

  /** charsetPoolEntropy: four class tests (`/[a-z]/.test(password)` is
      `Lower in ClassesOf(password, ClassOf)`) each adding a class size, the
      floor `Math.max(pool, 1)`, then `length * log2(pool)`. The contract uses
      the pool without the floor, since the floor never changes it. */
  method CharsetPoolEntropy(password: string, log2: real -> real) returns (bits: real)
    ensures bits == PoolBits(password, log2)
    ensures |password| == 0 ==> bits == 0.0
  {
    if |password| == 0 {
      return 0.0;
    }
    var pool := 0;
    if Lower in ClassesOf(password, ClassOf) { pool := pool + 26; }
    if Upper in ClassesOf(password, ClassOf) { pool := pool + 26; }
    if Digit in ClassesOf(password, ClassOf) { pool := pool + 10; }
    if Symbol in ClassesOf(password, ClassOf) { pool := pool + 32; }
    assert pool == PoolSize(ClassesOf(password, ClassOf));
    PoolOfPassword(password);
    pool := if pool > 1 then pool else 1;
    bits := JsLength(password) as real * log2(pool as real);
  }

  // ---------------------------------------------------------------------
  // Shannon model (shannonEntropy)

  /** The distinct characters of s in order of first occurrence: the key
      order of the frequency table the loop builds. */
  function Distinct(s: string): (d: seq<char>)
    ensures forall c :: c in d <==> c in s
    ensures forall i, j | 0 <= i < j < |d| :: d[i] != d[j]
  {
    if s == [] then []
    else
      var d := Distinct(s[..|s| - 1]);
      var c := s[|s| - 1];
      assert forall x :: x in s <==> x in s[..|s| - 1] || x == c;
      if c in d then d else d + [c]
  }

  /** The frequency table: each character of s mapped to its number of
      occurrences. */
  function Frequencies(s: string): map<char, nat> {
    map c | c in s :: multiset(s)[c]
  }

  /** The table's keys are exactly the characters of s, each with a count of
      at least one. */
  lemma FrequenciesFacts(s: string)
    ensures forall c :: c in Frequencies(s) <==> c in s
    ensures forall c | c in Frequencies(s) :: Frequencies(s)[c] == multiset(s)[c] >= 1
  {
  }

  /** Sum of the counts of the given keys. */
  function CountSum(keys: seq<char>, freq: map<char, nat>): nat
    requires forall k | k in keys :: k in freq
  {
    if keys == [] then 0
    else CountSum(keys[..|keys| - 1], freq) + freq[keys[|keys| - 1]]
  }

  lemma FrequenciesSnoc(p: string, c: char)
    ensures Frequencies(p + [c]) == Frequencies(p)[c := multiset(p)[c] + 1]
  {
    var s := p + [c];
    assert multiset(s) == multiset(p) + multiset{c};
    assert forall x :: x in s <==> x in p || x == c;
  }

  /** Adding one occurrence of c raises the count sum of distinct keys by
      one when c is among them, and leaves it otherwise. */
  lemma {:induction false} CountSumSnoc(keys: seq<char>, p: string, c: char)
    requires forall k | k in keys :: k in p
    requires forall i, j | 0 <= i < j < |keys| :: keys[i] != keys[j]
    ensures forall k | k in keys :: k in p + [c]
    ensures CountSum(keys, Frequencies(p + [c]))
            == CountSum(keys, Frequencies(p)) + (if c in keys then 1 else 0)
  {
    var s := p + [c];
    assert forall x :: x in p ==> x in s;
    if keys != [] {
      var init := keys[..|keys| - 1];
      var k := keys[|keys| - 1];
      assert forall x :: x in keys <==> x in init || x == k;
      CountSumSnoc(init, p, c);
      FrequenciesSnoc(p, c);
      assert c in keys <==> c in init || c == k;
      assert c == k ==> c !in init;
    }
  }

  /** The counts of the distinct characters add up to the number of
      characters (code points) of s. */
  lemma {:induction false} CountSumIsLength(s: string)
    ensures CountSum(Distinct(s), Frequencies(s)) == |s|
  {
    if s != [] {
      var p := s[..|s| - 1];
      var c := s[|s| - 1];
      assert s == p + [c];
      CountSumIsLength(p);
      CountSumSnoc(Distinct(p), p, c);
      if c !in p {
        CountSumNewKey(p, c);
      }
    }
  }

  /** A character not seen before becomes the last key, with a count of one. */
  lemma CountSumNewKey(p: string, c: char)
    requires c !in p
    ensures forall k | k in Distinct(p) :: k in Frequencies(p + [c])
    ensures CountSum(Distinct(p + [c]), Frequencies(p + [c]))
            == CountSum(Distinct(p), Frequencies(p + [c])) + 1
  {
    FrequenciesSnoc(p, c);
    var d := Distinct(p);
    assert (p + [c])[..|p|] == p;
    assert Distinct(p + [c]) == d + [c];
    assert (d + [c])[..|d|] == d;
  }

  /** One iteration of the counting loop: the table and the key order of
      p, extended by one character. */
  lemma FrequencyStep(p: string, ch: char)
    ensures Frequencies(p + [ch])
            == Frequencies(p)[ch := (if ch in Frequencies(p) then Frequencies(p)[ch] else 0) + 1]
    ensures Distinct(p + [ch]) == if ch in Frequencies(p) then Distinct(p) else Distinct(p) + [ch]
  {
    FrequenciesSnoc(p, ch);
    assert (p + [ch])[..|p|] == p;
  }

  /** The loop `for (let ch of password) freq[ch] = (freq[ch] || 0) + 1`,
      with the object's key order kept in `keys`. The table has exactly the
      characters that occur as keys, each with a count of at least one equal
      to its number of occurrences; the keys are distinct, in first-occurrence
      order, and the counts sum to the number of code points. */
  method FrequencyTable(password: string) returns (freq: map<char, nat>, keys: seq<char>)
    ensures freq == Frequencies(password)
    ensures forall c :: c in freq <==> c in password
    ensures forall c | c in freq :: freq[c] == multiset(password)[c] && freq[c] >= 1
    ensures keys == Distinct(password)
    ensures CountSum(keys, freq) == |password|
  {
    freq := map[];
    keys := [];
    var i := 0;
    while i < |password|
      invariant 0 <= i <= |password|
      invariant freq == Frequencies(password[..i])
      invariant keys == Distinct(password[..i])
    {
      var ch := password[i];
      assert password[..i + 1] == password[..i] + [ch];
      FrequencyStep(password[..i], ch);
      if ch !in freq {
        keys := keys + [ch];
      }
      freq := freq[ch := (if ch in freq then freq[ch] else 0) + 1];
      i := i + 1;
    }
    assert password[..i] == password;
    FrequenciesFacts(password);
    CountSumIsLength(password);
  }

  /** `-Σ p·log2(p)` over the keys, with `p = freq[k] / len`, accumulated in
      key order as the second loop does. */
  function Surprisal(keys: seq<char>, freq: map<char, nat>, len: nat, log2: real -> real): real
    requires len > 0
    requires forall k | k in keys :: k in freq
  {
    if keys == [] then 0.0
    else
      var p := freq[keys[|keys| - 1]] as real / len as real;
      Surprisal(keys[..|keys| - 1], freq, len, log2) - p * log2(p)
  }

  /** The loop `for (let k in freq) { const p = freq[k] / len; h -= p * Math.log2(p); }`. */
  method SumSurprisal(freq: map<char, nat>, keys: seq<char>, len: nat, log2: real -> real)
    returns (h: real)
    requires len > 0
    requires forall k | k in keys :: k in freq
    ensures h == Surprisal(keys, freq, len, log2)
  {
    h := 0.0;
    var j := 0;
    while j < |keys|
      invariant 0 <= j <= |keys|
      invariant h == Surprisal(keys[..j], freq, len, log2)
    {
      var p := freq[keys[j]] as real / len as real;
      assert keys[..j + 1][..j] == keys[..j];
      h := h - p * log2(p);
      j := j + 1;
    }
    assert keys[..j] == keys;
  }

  /** Entropy per symbol of s when the counts are divided by len. */
  function Entropy(s: string, len: nat, log2: real -> real): real
    requires len > 0
  {
    Surprisal(Distinct(s), Frequencies(s), len, log2)
  }

  /** a / b is one for a == b and below one for a < b. */
  lemma RatioBelowOne(a: nat, b: nat)
    requires 0 < b && a <= b
    ensures a == b ==> a as real / b as real == 1.0
    ensures a < b ==> a as real / b as real < 1.0
  {
  }

  /** The two loops of shannonEntropy: build the frequency table, then sum
      `-p·log2(p)` over its keys with the counts divided by len. */
  method EntropyPerSymbol(password: string, len: nat, log2: real -> real) returns (h: real)
    requires len > 0
    ensures h == Entropy(password, len, log2)
  {
    var freq, keys := FrequencyTable(password);
    h := SumSurprisal(freq, keys, len, log2);
  }

  /** Sum of the probabilities `freq[k] / len` over the keys. */
  function ProbabilityMass(keys: seq<char>, freq: map<char, nat>, len: nat): real
    requires len > 0
    requires forall k | k in keys :: k in freq
  {
    if keys == [] then 0.0
    else ProbabilityMass(keys[..|keys| - 1], freq, len) + freq[keys[|keys| - 1]] as real / len as real
  }

  lemma {:induction false} ProbabilityMassIsCountSum(keys: seq<char>, freq: map<char, nat>, len: nat)
    requires len > 0
    requires forall k | k in keys :: k in freq
    ensures ProbabilityMass(keys, freq, len) == CountSum(keys, freq) as real / len as real
  {
    if keys != [] {
      var init := keys[..|keys| - 1];
      ProbabilityMassIsCountSum(init, freq, len);
      SumOfFractions(CountSum(init, freq) as real, freq[keys[|keys| - 1]] as real, len as real);
    }
  }

  lemma SumOfFractions(a: real, b: real, d: real)
    requires d != 0.0
    ensures a / d + b / d == (a + b) / d
  {
  }

  /** The probabilities of the Shannon model, with counts divided by len,
      sum to the number of code points over len. */
  lemma ProbabilityMassOf(s: string, len: nat)
    requires len > 0
    ensures ProbabilityMass(Distinct(s), Frequencies(s), len) == |s| as real / len as real
  {
    ProbabilityMassIsCountSum(Distinct(s), Frequencies(s), len);
    CountSumIsLength(s);
  }

  /** Shannon bits `h * len` of a password whose counts are divided by len;
      nothing for the empty password. */
  function ShannonBitsOver(s: string, len: nat, log2: real -> real): real
    requires |s| > 0 ==> len > 0
  {
    if |s| == 0 then 0.0 else Entropy(s, len, log2) * len as real
  }

  /** shannonEntropy AS WRITTEN: the counts range over code points but are
      divided by `password.length`, the number of UTF-16 code units. */
  function ShannonBitsAsWritten(s: string, log2: real -> real): real {
    ShannonBitsOver(s, JsLength(s), log2)
  }

  /** shannonEntropy with the length taken as the number of code points the
      counting loop visits; this is the Shannon model the rest of this
      model uses. */
  function ShannonBits(s: string, log2: real -> real): real {
    ShannonBitsOver(s, |s|, log2)
  }

  /** shannonEntropy after its empty-password check, with the counts divided
      by len: the two loops, then `h * len`. */
  method ShannonEntropyOver(password: string, len: nat, log2: real -> real) returns (bits: real)
    requires |password| > 0 ==> len > 0
    ensures bits == ShannonBitsOver(password, len, log2)
    ensures |password| == 0 ==> bits == 0.0
  {
    if |password| == 0 {
      return 0.0;
    }
    var h := EntropyPerSymbol(password, len, log2);
    bits := h * len as real;
  }

  /** shannonEntropy of main.js as written: `len = password.length`. */
  method ShannonEntropyAsWritten(password: string, log2: real -> real) returns (bits: real)
    ensures bits == ShannonBitsAsWritten(password, log2)
    ensures |password| == 0 ==> bits == 0.0
  {
    bits := ShannonEntropyOver(password, JsLength(password), log2);
  }

  /** shannonEntropy with its probabilities normalised by the number of code
      points the counting loop visits, so that they form a distribution. */
  method ShannonEntropy(password: string, log2: real -> real) returns (bits: real)
    ensures bits == ShannonBits(password, log2)
    ensures |password| == 0 ==> bits == 0.0
  {
    bits := ShannonEntropyOver(password, |password|, log2);
  }

  /** With the corrected length the probabilities form a distribution. */
  lemma ShannonProbabilitiesSumToOne(s: string)
    requires |s| > 0
    ensures ProbabilityMass(Distinct(s), Frequencies(s), |s|) == 1.0
  {
    ProbabilityMassOf(s, |s|);
    RatioBelowOne(|s|, |s|);
  }

  /** As written, the probabilities sum to less than one as soon as the
      password has a character outside the Basic Multilingual Plane. */
  lemma ShannonAsWrittenMassDeficit(s: string)
    requires |s| > 0
    ensures ProbabilityMass(Distinct(s), Frequencies(s), JsLength(s)) == |s| as real / JsLength(s) as real
    ensures (exists i | 0 <= i < |s| :: s[i] as int >= 0x1_0000)
            ==> ProbabilityMass(Distinct(s), Frequencies(s), JsLength(s)) < 1.0
  {
    ProbabilityMassOf(s, JsLength(s));
    JsLengthBmp(s);
    RatioBelowOne(|s|, JsLength(s));
  }

  /** The input that shows it: one emoji (one code point, two code units)
      gets probability 1/2. */
  lemma ShannonAsWrittenEmoji()
    ensures JsLength("\U{1F600}") == 2
    ensures ProbabilityMass(Distinct("\U{1F600}"), Frequencies("\U{1F600}"), 2) == 0.5
  {
    ProbabilityMassOf("\U{1F600}", 2);
  }

  /** ... and so, with the true log2(1/2) = -1, one bit of Shannon entropy for
      a password made of a single repeated symbol, where one repeated symbol
      should score 0 (ShannonSingleSymbol). */
  lemma ShannonAsWrittenEmojiBits(log2: real -> real)
    requires log2(0.5) == -1.0
    ensures ShannonBitsAsWritten("\U{1F600}", log2) == 1.0
  {
    var s := "\U{1F600}";
    assert JsLength(s) == 2;
    assert Distinct(s) == ['\U{1F600}'];
    assert Frequencies(s)['\U{1F600}'] == 1;
  }

  /** On Basic Multilingual Plane text the written and corrected Shannon
      models agree. */
  lemma ShannonAsWrittenAgreesOnBmp(s: string, log2: real -> real)
    requires forall i | 0 <= i < |s| :: s[i] as int < 0x1_0000
    ensures ShannonBitsAsWritten(s, log2) == ShannonBits(s, log2)
  {
    JsLengthBmp(s);
  }

  /** A password of one repeated character. */
  predicate Repeats(s: string, c: char) {
    forall i | 0 <= i < |s| :: s[i] == c
  }

  lemma RepeatsPrefix(s: string, c: char)
    requires |s| > 0 && Repeats(s, c)
    ensures Repeats(s[..|s| - 1], c) && s == s[..|s| - 1] + [c]
  {
    var p := s[..|s| - 1];
    forall i | 0 <= i < |p| ensures p[i] == c {
      assert p[i] == s[i];
    }
  }

  /** A repeated character is the only distinct character. */
  lemma {:induction false} RepeatedDistinct(s: string, c: char)
    requires |s| > 0 && Repeats(s, c)
    ensures Distinct(s) == [c]
  {
    var p := s[..|s| - 1];
    RepeatsPrefix(s, c);
    if |p| > 0 {
      RepeatedDistinct(p, c);
    }
  }

  /** A repeated character occurs once per position. */
  lemma {:induction false} RepeatedCount(s: string, c: char)
    requires Repeats(s, c)
    ensures multiset(s)[c] == |s|
  {
    if |s| > 0 {
      var p := s[..|s| - 1];
      RepeatsPrefix(s, c);
      RepeatedCount(p, c);
      assert multiset(s) == multiset(p) + multiset{c};
    }
  }

  /** The table of a repeated character has that character as its one key,
      counted once per position. */
  lemma RepeatedTable(s: string, c: char)
    requires |s| > 0 && Repeats(s, c)
    ensures Distinct(s) == [c]
    ensures c in Frequencies(s) && Frequencies(s)[c] == |s|
  {
    RepeatedDistinct(s, c);
    RepeatedCount(s, c);
    assert s[0] == c;
    FrequenciesFacts(s);
  }

  /** A password made of one repeated symbol has zero Shannon bits, given the
      true log2(1) = 0. */
  lemma ShannonSingleSymbol(s: string, c: char, log2: real -> real)
    requires |s| > 0 && Repeats(s, c)
    requires log2(1.0) == 0.0
    ensures ShannonBits(s, log2) == 0.0
  {
    RepeatedTable(s, c);
    RatioBelowOne(|s|, |s|);
    var p := Frequencies(s)[c] as real / |s| as real;
    assert p == 1.0;
    var keys := Distinct(s);
    assert keys[..|keys| - 1] == [];
    assert keys[|keys| - 1] == c;
    assert Surprisal(keys[..|keys| - 1], Frequencies(s), |s|, log2) == 0.0;
    assert Entropy(s, |s|, log2) == 0.0 - p * log2(p);
  }

  // ---------------------------------------------------------------------
  // Combiner (jsEntropy)

  /** `Math.max` of two estimates. */
  function Stronger(a: real, b: real): real {
    if a >= b then a else b
  }

  /** The stronger of the pool and the corrected Shannon estimate. */
  function JsEntropyBits(s: string, log2: real -> real): real {
    Stronger(PoolBits(s, log2), ShannonBits(s, log2))
  }

  /** The stronger of the pool and the Shannon estimate as main.js computes
      it. */
  function JsEntropyBitsAsWritten(s: string, log2: real -> real): real {
    Stronger(PoolBits(s, log2), ShannonBitsAsWritten(s, log2))
  }

  /** jsEntropy as written: `Math.max(poolBits, shannonBits)` over
      charsetPoolEntropy and shannonEntropy as main.js has them. */
  method JsEntropyAsWritten(password: string, log2: real -> real) returns (bits: real)
    ensures bits == JsEntropyBitsAsWritten(password, log2)
    ensures bits >= PoolBits(password, log2) && bits >= ShannonBitsAsWritten(password, log2)
    ensures bits == PoolBits(password, log2) || bits == ShannonBitsAsWritten(password, log2)
    ensures |password| == 0 ==> bits == 0.0
  {
    var poolBits := CharsetPoolEntropy(password, log2);
    var shannonBits := ShannonEntropyAsWritten(password, log2);
    bits := if poolBits >= shannonBits then poolBits else shannonBits;
  }

  /** jsEntropy over the corrected Shannon estimate. */
  method JsEntropy(password: string, log2: real -> real) returns (bits: real)
    ensures bits == JsEntropyBits(password, log2)
    ensures bits >= PoolBits(password, log2) && bits >= ShannonBits(password, log2)
    ensures bits == PoolBits(password, log2) || bits == ShannonBits(password, log2)
    ensures |password| == 0 ==> bits == 0.0
  {
    var poolBits := CharsetPoolEntropy(password, log2);
    var shannonBits := ShannonEntropy(password, log2);
    bits := if poolBits >= shannonBits then poolBits else shannonBits;
  }

  /** On Basic Multilingual Plane text the two combiners agree. */
  lemma JsEntropyAgreesOnBmp(s: string, log2: real -> real)
    requires forall i | 0 <= i < |s| :: s[i] as int < 0x1_0000
    ensures JsEntropyBitsAsWritten(s, log2) == JsEntropyBits(s, log2)
  {
    ShannonAsWrittenAgreesOnBmp(s, log2);
  }

  /** With log2(1/2) = -1, log2(1) = 0 and log2(32) = 0, one emoji tells the
      combiners apart: as written the Shannon bit wins, corrected it is 0. */
  lemma JsEntropyAsWrittenEmoji(log2: real -> real)
    requires log2(0.5) == -1.0 && log2(1.0) == 0.0 && log2(32.0) == 0.0
    ensures JsEntropyBitsAsWritten("\U{1F600}", log2) == 1.0
    ensures JsEntropyBits("\U{1F600}", log2) == 0.0
  {
    var s := "\U{1F600}";
    ShannonAsWrittenEmojiBits(log2);
    assert Repeats(s, '\U{1F600}');
    ShannonSingleSymbol(s, '\U{1F600}', log2);
    assert JsLength(s) == 2;
    assert ClassesOf(s, ClassOf) == {Symbol} by {
      ClassesOfNonEmpty(s, ClassOf);
    }
    assert PoolSize({Symbol}) == 32;
  }

  /** A repeated lower-case letter of length L: the pool model gives
      L·log2(26), the Shannon model 0, and the combination the pool value
      (given the true log2(1) = 0 and log2(26) >= 0). */
  lemma RepeatedLowerLetter(s: string, c: char, log2: real -> real)
    requires |s| > 0 && Repeats(s, c) && 'a' <= c <= 'z'
    requires log2(1.0) == 0.0 && log2(26.0) >= 0.0
    ensures PoolBits(s, log2) == |s| as real * log2(26.0)
    ensures ShannonBits(s, log2) == 0.0
    ensures JsEntropyBits(s, log2) == |s| as real * log2(26.0)
    ensures ShannonBitsAsWritten(s, log2) == 0.0
    ensures JsEntropyBitsAsWritten(s, log2) == |s| as real * log2(26.0)
  {
    ShannonSingleSymbol(s, c, log2);
    RepeatedLowerPool(s, c, log2);
    NonNegativeProduct(|s| as real, log2(26.0));
    assert forall i | 0 <= i < |s| :: s[i] as int < 0x1_0000;
    ShannonAsWrittenAgreesOnBmp(s, log2);
    JsEntropyAgreesOnBmp(s, log2);
  }

  /** The pool half: one class, lower case, 26 characters. */
  lemma RepeatedLowerPool(s: string, c: char, log2: real -> real)
    requires |s| > 0 && Repeats(s, c) && 'a' <= c <= 'z'
    ensures PoolBits(s, log2) == |s| as real * log2(26.0)
  {
    JsLengthBmp(s);
    assert ClassesOf(s, ClassOf) == {Lower} by {
      ClassesOfNonEmpty(s, ClassOf);
    }
    assert PoolSize({Lower}) == 26;
  }

  lemma NonNegativeProduct(a: real, b: real)
    requires a >= 0.0 && b >= 0.0
    ensures a * b >= 0.0
  {
  }
}
