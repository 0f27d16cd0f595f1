/** The secure password generator of main.js: secureGenerate, randomChar
    and the Fisher–Yates shuffleArray.

    `crypto.getRandomValues` is the parameter `rng`: `rng(k)` is the k-th
    32-bit value it yields. Every draw takes the next value, so each method
    receives the position of its first draw and returns the position after
    its last one. */
module Generator {
  import opened CharClass

  type Uint32 = x: int | 0 <= x < 0x1_0000_0000

  /** The stream of 32-bit values the secure random source yields. */
  type Rng = nat -> Uint32

  /** A character pool; the generator only ever draws from non-empty ones.
      Its elements are code points, while `pool[i]` in JavaScript indexes
      UTF-16 code units; the two agree on the four ASCII pools secureGenerate
      builds. */
  type Pool = s: string | |s| > 0 witness "a"

  const LowerPool: Pool := "abcdefghijklmnopqrstuvwxyz"
  const UpperPool: Pool := "ABCDEFGHIJKLMNOPQRSTUVWXYZ"
  const DigitPool: Pool := "0123456789"
  const SymbolPool: Pool := "!@#$%^&*()-_=+[]{};:,.<>/?|~"

  /** The four check boxes of the generator. */
  datatype Options = Options(lower: bool, upper: bool, digits: bool, symbols: bool)

  /** The index a random draw r selects among n: `r % n`, below n. Both
      operands are non-negative, so JavaScript's truncating `%` and Dafny's
      Euclidean one agree. */
  function RandomIndex(r: Uint32, n: nat): (j: nat)
    requires n > 0
    ensures j < n
  {
    r % n
  }

  /** randomChar: the character at `r % pool.length`, always one of the
      pool's. */
  function RandomChar(pool: Pool, r: Uint32): (c: char)
    ensures c in pool
  {
    pool[RandomIndex(r, |pool|)]
  }

  /** The pool of each option's class. */
  function PoolFor(k: Class): Pool {
    match k
    case Lower => LowerPool
    case Upper => UpperPool
    case Digit => DigitPool
    case Symbol => SymbolPool
  }

  /** The classes whose pools secureGenerate pushes, in the order it pushes
      them: lower, upper, digits, symbols as selected, or lower, upper and
      digits when none is selected. No class is pushed twice. */
  function SelectedClasses(opts: Options): (ks: seq<Class>)
    ensures 0 < |ks| <= 4
    ensures forall i, j | 0 <= i < j < |ks| :: ks[i] != ks[j]
  {
    var chosen := (if opts.lower then [Lower] else [])
      + (if opts.upper then [Upper] else [])
      + (if opts.digits then [Digit] else [])
      + (if opts.symbols then [Symbol] else []);
    if chosen == [] then [Lower, Upper, Digit] else chosen
  }

  /** The position of a class's push among the four `if (opts...)` lines. */
  function PushOrder(k: Class): nat {
    match k
    case Lower => 0
    case Upper => 1
    case Digit => 2
    case Symbol => 3
  }

  /** A class is pushed exactly when its option is set, or when no option is
      set and it is one of lower, upper and digits; the pushes come in
      source order. */
  lemma SelectedClassesAre(opts: Options)
    ensures var none := !(opts.lower || opts.upper || opts.digits || opts.symbols);
            (Lower in SelectedClasses(opts) <==> opts.lower || none)
            && (Upper in SelectedClasses(opts) <==> opts.upper || none)
            && (Digit in SelectedClasses(opts) <==> opts.digits || none)
            && (Symbol in SelectedClasses(opts) <==> opts.symbols)
    ensures forall i, j | 0 <= i < j < |SelectedClasses(opts)| ::
              PushOrder(SelectedClasses(opts)[i]) < PushOrder(SelectedClasses(opts)[j])
  {
  }

  /** The pools array of secureGenerate. */
  function SelectedPools(opts: Options): (pools: seq<Pool>)
    ensures |pools| == |SelectedClasses(opts)|
    ensures forall i | 0 <= i < |pools| :: pools[i] == PoolFor(SelectedClasses(opts)[i])
  {
    var ks := SelectedClasses(opts);
    seq(|ks|, i requires 0 <= i < |ks| => PoolFor(ks[i]))
  }

  /** `pools.join('')`: the combined pool holds exactly the characters of the
      individual pools. */
  function Join(pools: seq<Pool>): (s: string)
    ensures |pools| > 0 ==> |s| > 0
    ensures forall i, c | 0 <= i < |pools| && c in pools[i] :: c in s
    ensures forall c | c in s :: exists i | 0 <= i < |pools| :: c in pools[i]
  {
    if pools == [] then ""
    else
      var init := pools[..|pools| - 1];
      var s := Join(init) + pools[|pools| - 1];
      assert forall i | 0 <= i < |init| :: init[i] == pools[i];
      s
  }

  // ---------------------------------------------------------------------
  // Fisher–Yates (shuffleArray)

  function Swap<T>(s: seq<T>, i: nat, j: nat): (t: seq<T>)
    requires i < |s| && j < |s|
  {
    seq(|s|, k requires 0 <= k < |s| => if k == i then s[j] else if k == j then s[i] else s[k])
  }

  lemma SwapPermutes<T>(s: seq<T>, i: nat, j: nat)
    requires i < |s| && j < |s|
    ensures |Swap(s, i, j)| == |s|
    ensures multiset(Swap(s, i, j)) == multiset(s)
  {
    assert Swap(s, i, j) == s[i := s[j]][j := s[i]];
    var t := s[i := s[j]];
    assert multiset(t) == multiset(s) - multiset{s[i]} + multiset{s[j]};
    assert multiset(t[j := s[i]]) == multiset(t) - multiset{t[j]} + multiset{s[i]};
  }

  /** Draws the shuffle of n elements takes: one per index from n - 1 down
      to 1. */
  function ShuffleDraws(n: nat): nat {
    if n > 1 then n - 1 else 0
  }

  /** The first n steps of shuffleArray's loop on s, starting at the draw
      pos: step m (from 1) works on index `i = |s| - m`, swapping it with
      `rng(pos + m - 1) % (i + 1)`. */
  function ShuffleSteps<T>(s: seq<T>, n: nat, rng: Rng, pos: nat): (t: seq<T>)
    requires n < |s|
    ensures |t| == |s|
  {
    if n == 0 then s
    else
      var i := |s| - n;
      Swap(ShuffleSteps(s, n - 1, rng, pos), i, RandomIndex(rng(pos + n - 1), i + 1))
  }

  /** The whole shuffle of s, starting at the draw pos. */
  function FisherYates<T>(s: seq<T>, rng: Rng, pos: nat): seq<T> {
    if |s| == 0 then s else ShuffleSteps(s, ShuffleDraws(|s|), rng, pos)
  }

  /** Every step is a swap, so the shuffle is a permutation of its input. */
  lemma {:induction false} ShuffleStepsPermutes<T>(s: seq<T>, n: nat, rng: Rng, pos: nat)
    requires n < |s|
    ensures multiset(ShuffleSteps(s, n, rng, pos)) == multiset(s)
  {
    if n > 0 {
      var i := |s| - n;
      var t := ShuffleSteps(s, n - 1, rng, pos);
      var j := RandomIndex(rng(pos + n - 1), i + 1);
      assert ShuffleSteps(s, n, rng, pos) == Swap(t, i, j);
      ShuffleStepsPermutes(s, n - 1, rng, pos);
      SwapPermutes(t, i, j);
    }
  }

  lemma FisherYatesPermutes<T>(s: seq<T>, rng: Rng, pos: nat)
    ensures |FisherYates(s, rng, pos)| == |s|
    ensures multiset(FisherYates(s, rng, pos)) == multiset(s)
  {
    if |s| > 0 {
      ShuffleStepsPermutes(s, ShuffleDraws(|s|), rng, pos);
    }
  }

  /** The destructuring swap `[arr[i], arr[j]] = [arr[j], arr[i]]`. */
  method SwapElements<T>(a: array<T>, i: nat, j: nat)
    requires i < a.Length && j < a.Length
    modifies a
    ensures a[..] == Swap(old(a[..]), i, j)
  {
    a[i], a[j] := a[j], a[i];
  }

  /** shuffleArray: a downward loop that swaps `arr[i]` with `arr[j]` for
      `j = r % (i + 1)`, so `0 <= j <= i`; the array ends as the Fisher–Yates
      shuffle of its old contents, a permutation of them. */
  method ShuffleArray<T>(a: array<T>, rng: Rng, pos: nat) returns (next: nat)
    modifies a
    ensures a[..] == FisherYates(old(a[..]), rng, pos)
    ensures multiset(a[..]) == multiset(old(a[..]))
    ensures next == pos + ShuffleDraws(a.Length)
  {
    next := pos;
    if a.Length == 0 {
      return;
    }
    ghost var s0 := a[..];
    var i := a.Length - 1;
    while i > 0
      invariant 0 <= i < a.Length == |s0|
      invariant a[..] == ShuffleSteps(s0, |s0| - 1 - i, rng, pos)
      invariant next == pos + (|s0| - 1 - i)
    {
      var r := rng(next);
      var j := RandomIndex(r, i + 1);
      ghost var done := |s0| - 1 - i;
      ghost var before := a[..];
      SwapElements(a, i, j);
      assert i == |s0| - (done + 1) && r == rng(pos + (done + 1) - 1);
      assert ShuffleSteps(s0, done + 1, rng, pos) == Swap(before, i, j);
      next := next + 1;
      i := i - 1;
    }
    FisherYatesPermutes(s0, rng, pos);
  }

  // ---------------------------------------------------------------------
  // secureGenerate

  /** The seed characters: one draw from each pool, in pool order. */
  function Seeds(pools: seq<Pool>, rng: Rng, pos: nat): (out: seq<char>)
    ensures |out| == |pools|
    ensures forall i | 0 <= i < |pools| :: out[i] in pools[i]
  {
    if pools == [] then []
    else
      var init := pools[..|pools| - 1];
      var out := Seeds(init, rng, pos) + [RandomChar(pools[|pools| - 1], rng(pos + |pools| - 1))];
      assert forall i | 0 <= i < |init| :: init[i] == pools[i];
      out
  }

  /** k draws from the combined pool. */
  function Fill(combined: Pool, k: nat, rng: Rng, pos: nat): (out: seq<char>)
    ensures |out| == k
    ensures forall c | c in out :: c in combined
  {
    if k == 0 then []
    else Fill(combined, k - 1, rng, pos) + [RandomChar(combined, rng(pos + k - 1))]
  }

  /** How many characters the fill loop adds after the seeds. */
  function FillCount(length: int, seeded: nat): nat {
    if length > seeded then length - seeded else 0
  }

  /** `out.slice(0, end)`: a negative end counts back from the end of out. */
  function SliceEnd(n: nat, end: int): (k: nat)
    ensures k <= n
    ensures 0 <= end ==> k == if end < n then end else n
    ensures end < 0 ==> k == if n + end > 0 then n + end else 0
  {
    if end < 0 then (if n + end > 0 then n + end else 0)
    else if end < n then end
    else n
  }

  /** The characters before the shuffle: the seeds, then the fill. */
  function Unshuffled(length: int, pools: seq<Pool>, rng: Rng, pos: nat): seq<char>
    requires |pools| > 0
  {
    Seeds(pools, rng, pos) + Fill(Join(pools), FillCount(length, |pools|), rng, pos + |pools|)
  }

  /** What secureGenerate returns for the given pools. */
  function Generated(length: int, pools: seq<Pool>, rng: Rng, pos: nat): string
    requires |pools| > 0
  {
    var out := Unshuffled(length, pools, rng, pos);
    var shuffled := FisherYates(out, rng, pos + |out|);
    shuffled[..SliceEnd(|shuffled|, length)]
  }

  /** Generated in terms of its two intermediate values, so that a caller
      holding them matches the definition without unfolding its let-bindings
      (the proof of GenerateFrom runs out of resource without it). */
  lemma GeneratedOf(length: int, pools: seq<Pool>, rng: Rng, pos: nat, out: seq<char>, shuffled: seq<char>)
    requires |pools| > 0
    requires out == Unshuffled(length, pools, rng, pos)
    requires shuffled == FisherYates(out, rng, pos + |out|)
    ensures Generated(length, pools, rng, pos) == shuffled[..SliceEnd(|shuffled|, length)]
  {
  }

  /** Draws one call of secureGenerate takes. */
  function GenerateDraws(length: int, pools: nat): nat {
    var n := pools + FillCount(length, pools);
    n + ShuffleDraws(n)
  }

  /** Some character of password comes from pool. */
  predicate Represented(password: string, pool: Pool) {
    exists k | 0 <= k < |password| :: password[k] in pool
  }

  /** For a non-negative length the password has exactly that many
      characters: the seeds and the fill never fall short of it, and the
      slice cuts off any surplus. */
  lemma GeneratedLength(length: int, pools: seq<Pool>, rng: Rng, pos: nat)
    requires |pools| > 0 && length >= 0
    ensures |Generated(length, pools, rng, pos)| == length
  {
    var out := Unshuffled(length, pools, rng, pos);
    FisherYatesPermutes(out, rng, pos + |out|);
  }

  /** Every character of the password is from the combined pool. */
  lemma GeneratedFromPools(length: int, pools: seq<Pool>, rng: Rng, pos: nat)
    requires |pools| > 0
    ensures forall c | c in Generated(length, pools, rng, pos) :: c in Join(pools)
  {
    var out := Unshuffled(length, pools, rng, pos);
    var shuffled := FisherYates(out, rng, pos + |out|);
    var prefix := shuffled[..SliceEnd(|shuffled|, length)];
    GeneratedOf(length, pools, rng, pos, out, shuffled);
    UnshuffledFromPools(length, pools, rng, pos);
    ShuffledPrefixFrom(out, rng, pos + |out|, SliceEnd(|shuffled|, length));
    forall c | c in Generated(length, pools, rng, pos) ensures c in Join(pools) {
      assert c in prefix;
      assert c in out;
    }
  }

  /** Seeds and fill are all drawn from the combined pool. */
  lemma UnshuffledFromPools(length: int, pools: seq<Pool>, rng: Rng, pos: nat)
    requires |pools| > 0
    ensures forall c | c in Unshuffled(length, pools, rng, pos) :: c in Join(pools)
  {
    var seeds := Seeds(pools, rng, pos);
    forall c | c in seeds ensures c in Join(pools) {
      var i :| 0 <= i < |seeds| && seeds[i] == c;
      assert c in pools[i];
    }
  }

  /** Whatever survives the truncation of a shuffle was in its input. */
  lemma ShuffledPrefixFrom<T>(s: seq<T>, rng: Rng, pos: nat, k: nat)
    requires k <= |s|
    ensures k <= |FisherYates(s, rng, pos)|
    ensures forall c | c in FisherYates(s, rng, pos)[..k] :: c in s
  {
    var t := FisherYates(s, rng, pos);
    FisherYatesPermutes(s, rng, pos);
    forall c | c in t[..k] ensures c in s {
      assert c in t;
      assert c in multiset(s);
    }
  }

  /** When the length is at least the number of pools nothing is cut off,
      so every pool's seed survives the shuffle. */
  lemma GeneratedCoverage(length: int, pools: seq<Pool>, rng: Rng, pos: nat)
    requires |pools| > 0 && length >= |pools|
    ensures forall i | 0 <= i < |pools| :: Represented(Generated(length, pools, rng, pos), pools[i])
  {
    var out := Unshuffled(length, pools, rng, pos);
    var seeds := Seeds(pools, rng, pos);
    var shuffled := FisherYates(out, rng, pos + |out|);
    FisherYatesPermutes(out, rng, pos + |out|);
    var password := Generated(length, pools, rng, pos);
    assert |out| == length;
    assert password == shuffled;
    forall i | 0 <= i < |pools| ensures Represented(password, pools[i]) {
      assert out[i] == seeds[i];
      assert out[i] in multiset(password);
      var k :| 0 <= k < |password| && password[k] == out[i];
    }
  }

  /** A fresh array holding s. */
  method ArrayOf<T>(s: seq<T>) returns (a: array<T>)
    ensures fresh(a)
    ensures a[..] == s
  {
    a := new T[|s|](k requires 0 <= k < |s| => s[k]);
  }

  /** The last line of secureGenerate: shuffle the characters in place, then
      keep `slice(0, length)` of them. */
  method ShuffleAndSlice(out: seq<char>, length: int, rng: Rng, pos: nat)
    returns (password: string, next: nat)
    ensures password == FisherYates(out, rng, pos)[..SliceEnd(|out|, length)]
    ensures next == pos + ShuffleDraws(|out|)
  {
    var arr := ArrayOf(out);
    next := ShuffleArray(arr, rng, pos);
    var mixed := arr[..];
    FisherYatesPermutes(out, rng, pos);
    password := mixed[..SliceEnd(|mixed|, length)];
  }

  /** The three properties of a generated password together. */
  lemma GeneratedFacts(length: int, pools: seq<Pool>, rng: Rng, pos: nat)
    requires |pools| > 0
    ensures length >= 0 ==> |Generated(length, pools, rng, pos)| == length
    ensures forall c | c in Generated(length, pools, rng, pos) :: c in Join(pools)
    ensures length >= |pools| ==>
              forall i | 0 <= i < |pools| :: Represented(Generated(length, pools, rng, pos), pools[i])
  {
    if length >= 0 {
      GeneratedLength(length, pools, rng, pos);
    }
    GeneratedFromPools(length, pools, rng, pos);
    if length >= |pools| {
      GeneratedCoverage(length, pools, rng, pos);
    }
  }

  /** The seeding loop of secureGenerate: one draw from each pool. */
  method DrawSeeds(pools: seq<Pool>, rng: Rng, pos: nat) returns (out: seq<char>, next: nat)
    ensures out == Seeds(pools, rng, pos)
    ensures next == pos + |pools|
  {
    next := pos;
    out := [];
    for i := 0 to |pools|
      invariant out == Seeds(pools[..i], rng, pos)
      invariant next == pos + i
    {
      assert pools[..i + 1][..i] == pools[..i];
      out := out + [RandomChar(pools[i], rng(next))];
      next := next + 1;
    }
    assert pools[..|pools|] == pools;
  }

  /** The fill loop of secureGenerate: draw from the combined pool while the
      output is shorter than length. */
  method DrawFill(combined: Pool, seeds: seq<char>, length: int, rng: Rng, pos: nat)
    returns (out: seq<char>, next: nat)
    ensures out == seeds + Fill(combined, FillCount(length, |seeds|), rng, pos)
    ensures next == pos + FillCount(length, |seeds|)
  {
    out := seeds;
    next := pos;
    while |out| < length
      invariant |seeds| <= |out|
      invariant |out| <= |seeds| || |out| <= length
      invariant out == seeds + Fill(combined, |out| - |seeds|, rng, pos)
      invariant next == pos + (|out| - |seeds|)
      decreases length - |out|
    {
      out := out + [RandomChar(combined, rng(next))];
      next := next + 1;
    }
  }

  /** The body of secureGenerate once the pools are chosen: seed one
      character per pool, fill from the combined pool while the output is
      shorter than length, shuffle, and slice to length. */
  method GenerateFrom(length: int, pools: seq<Pool>, rng: Rng, pos: nat)
    returns (password: string, next: nat)
    requires |pools| > 0
    ensures password == Generated(length, pools, rng, pos)
    ensures length >= 0 ==> |password| == length
    ensures forall c | c in password :: c in Join(pools)
    ensures length >= |pools| ==> forall i | 0 <= i < |pools| :: Represented(password, pools[i])
    ensures next == pos + GenerateDraws(length, |pools|)
  {
    var out, afterSeeds := DrawSeeds(pools, rng, pos);
    var combined := Join(pools);
    out, next := DrawFill(combined, out, length, rng, afterSeeds);
    assert out == Unshuffled(length, pools, rng, pos);
    assert next == pos + |out|;

    ghost var shuffled := FisherYates(out, rng, next);
    FisherYatesPermutes(out, rng, next);
    password, next := ShuffleAndSlice(out, length, rng, next);
    assert password == shuffled[..SliceEnd(|shuffled|, length)];
    GeneratedOf(length, pools, rng, pos, out, shuffled);
    GeneratedFacts(length, pools, rng, pos);
  }

  /** secureGenerate: the pools of the selected options (or the default
      three), then the generation proper. */
  method SecureGenerate(length: int, opts: Options, rng: Rng, pos: nat)
    returns (password: string, next: nat)
    ensures password == Generated(length, SelectedPools(opts), rng, pos)
    ensures length >= 0 ==> |password| == length
    ensures forall c | c in password :: c in Join(SelectedPools(opts))
    ensures length >= |SelectedPools(opts)| ==>
              forall i | 0 <= i < |SelectedPools(opts)| :: Represented(password, SelectedPools(opts)[i])
    ensures next == pos + GenerateDraws(length, |SelectedPools(opts)|)
  {
    password, next := GenerateFrom(length, SelectedPools(opts), rng, pos);
  }

  /** With no option selected the generator behaves exactly as with lower,
      upper and digits selected, for every length and random stream. */
  lemma NoOptionsMeansDefault(length: int, rng: Rng, pos: nat)
    ensures SelectedPools(Options(false, false, false, false)) == SelectedPools(Options(true, true, true, false))
    ensures Generated(length, SelectedPools(Options(false, false, false, false)), rng, pos)
            == Generated(length, SelectedPools(Options(true, true, true, false)), rng, pos)
  {
  }

  // ---------------------------------------------------------------------
  // The degraded case: length below the number of pools

  /** Each pool lies entirely inside its class. */
  lemma PoolWithinClass(k: Class, c: char)
    requires c in PoolFor(k)
    ensures ClassOf(c) == k
  {
    match k
    case Lower => LowerPoolWithin(c);
    case Upper => UpperPoolWithin(c);
    case Digit => DigitPoolWithin(c);
    case Symbol => SymbolPoolWithin(c);
  }

  lemma LowerPoolWithin(c: char)
    requires c in LowerPool
    ensures 'a' <= c <= 'z'
  {
  }

  lemma UpperPoolWithin(c: char)
    requires c in UpperPool
    ensures 'A' <= c <= 'Z'
  {
  }

  lemma DigitPoolWithin(c: char)
    requires c in DigitPool
    ensures '0' <= c <= '9'
  {
  }

  lemma SymbolPoolWithin(c: char)
    requires c in SymbolPool
    ensures !('a' <= c <= 'z') && !('A' <= c <= 'Z') && !('0' <= c <= '9')
  {
  }

  lemma {:induction false} DistinctClassesCount(ks: seq<Class>)
    requires forall i, j | 0 <= i < j < |ks| :: ks[i] != ks[j]
    ensures |ClassesOf(ks, (k: Class) => k)| == |ks|
  {
    if ks != [] {
      var init := ks[..|ks| - 1];
      var last := ks[|ks| - 1];
      assert ks == init + [last];
      DistinctClassesCount(init);
      ClassesOfSnoc(init, last, (k: Class) => k);
      assert last !in ClassesOf(init, (k: Class) => k);
    }
  }

  lemma {:induction false} ClassesCountAtMost(s: string)
    ensures |ClassesOf(s, ClassOf)| <= |s|
  {
    if s != [] {
      var init := s[..|s| - 1];
      assert s == init + [s[|s| - 1]];
      ClassesCountAtMost(init);
      ClassesOfSnoc(init, s[|s| - 1], ClassOf);
    }
  }

  /** With fewer characters than selected pools, the truncation after the
      shuffle always drops some selected pool: the pools are disjoint, and
      each character can stand for only one. */
  lemma ShortLengthDropsAPool(length: int, opts: Options, rng: Rng, pos: nat)
    requires 0 <= length < |SelectedPools(opts)|
    ensures exists i | 0 <= i < |SelectedPools(opts)| ::
              !Represented(Generated(length, SelectedPools(opts), rng, pos), SelectedPools(opts)[i])
  {
    var pools := SelectedPools(opts);
    var ks := SelectedClasses(opts);
    var password := Generated(length, pools, rng, pos);
    GeneratedLength(length, pools, rng, pos);
    var present := ClassesOf(password, ClassOf);
    var wanted := ClassesOf(ks, (k: Class) => k);
    ClassesCountAtMost(password);
    DistinctClassesCount(ks);
    assert !(wanted <= present) by {
      if wanted <= present {
        SubsetCardinality(wanted, present);
      }
    }
    var k :| k in wanted && k !in present;
    var i :| 0 <= i < |ks| && ks[i] == k;
    forall m | 0 <= m < |password| ensures password[m] !in pools[i] {
      assert ClassOf(password[m]) in present;
      if password[m] in pools[i] {
        PoolWithinClass(k, password[m]);
      }
    }
  }

  lemma SubsetCardinality(a: set<Class>, b: set<Class>)
    requires a <= b
    ensures |a| <= |b|
  {
    assert b == a + (b - a);
  }
}
