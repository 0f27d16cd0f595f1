/** The native estimator of entropy.c, calc_entropy: the pool-size estimate
    over the bytes of a NUL-terminated C string. The natural logarithm of
    math.h is the parameter `log`. */
module NativeEntropy {
  import opened CharClass
  import opened Strength

  type byte = x: int | 0 <= x < 256

  /** A `const char*`: either NULL, or memory holding a NUL somewhere. */
  datatype CString = Null | Ptr(mem: seq<byte>)

  /** A C string calc_entropy may be handed: NULL or NUL-terminated. */
  predicate Terminated(p: CString) {
    p.Ptr? ==> 0 in p.mem
  }

  /** strlen: the index of the first NUL. */
  function StrLen(mem: seq<byte>): (n: nat)
    requires 0 in mem
    ensures n < |mem| && mem[n] == 0
    ensures forall i | 0 <= i < n :: mem[i] != 0
  {
    if mem[0] == 0 then 0
    else
      assert 0 in mem[1..];
      1 + StrLen(mem[1..])
  }

  /** The characters calc_entropy looks at: the bytes before the NUL. */
  function Contents(mem: seq<byte>): (s: seq<byte>)
    requires 0 in mem
    ensures 0 !in s
  {
    mem[..StrLen(mem)]
  }

  /** The if/else-if chain of the loop: `'a'..'z'`, `'A'..'Z'`, `'0'..'9'`,
      and every other byte (high bytes of UTF-8 included) a symbol. */
  function ByteClass(b: byte): Class {
    if 'a' as int <= b <= 'z' as int then Lower
    else if 'A' as int <= b <= 'Z' as int then Upper
    else if '0' as int <= b <= '9' as int then Digit
    else Symbol
  }

  /** An int flag of C. */
  function Flag(b: bool): int {
    if b then 1 else 0
  }

  /** The final formula, `len * (log(pool) / log(2.0))`: the length times the
      base-2 logarithm of the pool, computed from the natural logarithm. */
  function LengthTimesLog2(len: nat, pool: nat, log: real -> real): real
    requires log(2.0) != 0.0
  {
    len as real * Log2Of(pool as real, log)
  }

  /** The base-2 logarithm by change of base, `log(x) / log(2.0)`. */
  function Log2Of(x: real, log: real -> real): real
    requires log(2.0) != 0.0
  {
    log(x) / log(2.0)
  }

  /** What calc_entropy returns: 0 for NULL and for the empty string,
      otherwise `len * (log(pool) / log(2))` with the pool floored at 1. */
  function NativeBits(p: CString, log: real -> real): real
    requires Terminated(p)
    requires log(2.0) != 0.0
  {
    if p.Null? then 0.0
    else
      var s := Contents(p.mem);
      if |s| == 0 then 0.0
      else
        var pool := PoolSize(ClassesOf(s, ByteClass));
        var floored := if pool <= 0 then 1 else pool;
        LengthTimesLog2(|s|, floored, log)
  }

  /** The loop of calc_entropy over the first len bytes: each flag ends as
      1 exactly when some byte falls in its class. */
  method ScanFlags(mem: seq<byte>, len: nat) returns (hasLower: int, hasUpper: int, hasDigit: int, hasSymbol: int)
    requires len <= |mem|
    ensures hasLower == Flag(Lower in ClassesOf(mem[..len], ByteClass))
    ensures hasUpper == Flag(Upper in ClassesOf(mem[..len], ByteClass))
    ensures hasDigit == Flag(Digit in ClassesOf(mem[..len], ByteClass))
    ensures hasSymbol == Flag(Symbol in ClassesOf(mem[..len], ByteClass))
  {
    hasLower, hasUpper, hasDigit, hasSymbol := 0, 0, 0, 0;
    for i := 0 to len
      invariant hasLower == Flag(Lower in ClassesOf(mem[..i], ByteClass))
      invariant hasUpper == Flag(Upper in ClassesOf(mem[..i], ByteClass))
      invariant hasDigit == Flag(Digit in ClassesOf(mem[..i], ByteClass))
      invariant hasSymbol == Flag(Symbol in ClassesOf(mem[..i], ByteClass))
    {
      var c: byte := mem[i];
      if 'a' as int <= c <= 'z' as int {
        hasLower := 1;
      } else if 'A' as int <= c <= 'Z' as int {
        hasUpper := 1;
      } else if '0' as int <= c <= '9' as int {
        hasDigit := 1;
      } else {
        hasSymbol := 1;
      }
      assert mem[..i + 1] == mem[..i] + [c];
      ClassesOfSnoc<byte>(mem[..i], c, ByteClass);
    }
  }

  /** calc_entropy: the NULL and empty checks, the pass setting the four
      flags, the pool sum, the floor, and the bits. */
  method CalcEntropy(password: CString, log: real -> real) returns (bits: real)
    requires Terminated(password)
    requires log(2.0) != 0.0
    ensures bits == NativeBits(password, log)
    ensures password.Null? ==> bits == 0.0
    ensures password.Ptr? && password.mem[0] == 0 ==> bits == 0.0
  {
    if password.Null? {
      return 0.0;
    }
    var mem := password.mem;
    var len := StrLen(mem);
    if len == 0 {
      return 0.0;
    }
    var pool := 0;
    var hasLower, hasUpper, hasDigit, hasSymbol := ScanFlags(mem, len);
    ghost var present := ClassesOf(mem[..len], ByteClass);
    if hasLower != 0 { pool := pool + 26; }
    if hasUpper != 0 { pool := pool + 26; }
    if hasDigit != 0 { pool := pool + 10; }
    if hasSymbol != 0 { pool := pool + 32; }
    assert pool == PoolSize(present);
    if pool <= 0 {
      pool := 1;
    }
    bits := LengthTimesLog2(len, pool, log);
  }

  /** The `pool <= 0` guard never fires: a non-empty string has some class,
      so its pool is at least 10 (and at most 94). */
  lemma PoolGuardNeverFires(mem: seq<byte>)
    requires 0 in mem && StrLen(mem) > 0
    ensures 10 <= PoolSize(ClassesOf(Contents(mem), ByteClass)) <= 94
  {
    ClassesOfNonEmpty(Contents(mem), ByteClass);
  }

  /** The estimate only depends on which bytes occur and how many there
      are: rearranging the string leaves it unchanged. */
  lemma OrderIndependent(p: seq<byte>, q: seq<byte>, log: real -> real)
    requires 0 in p && 0 in q
    requires multiset(Contents(p)) == multiset(Contents(q))
    requires log(2.0) != 0.0
    ensures NativeBits(Ptr(p), log) == NativeBits(Ptr(q), log)
  {
    assert |Contents(p)| == |multiset(Contents(p))|;
    assert |Contents(q)| == |multiset(Contents(q))|;
    ClassesOfPermutation(Contents(p), Contents(q), ByteClass);
  }

  // ---------------------------------------------------------------------
  // Agreement with the JavaScript pool estimate

  /** The one-byte encoding of a string of ASCII characters without NUL. */
  predicate Ascii(s: string) {
    forall i | 0 <= i < |s| :: 0 < s[i] as int < 128
  }

  function AsciiBytes(s: string): (b: seq<byte>)
    requires Ascii(s)
    ensures |b| == |s|
    ensures forall i | 0 <= i < |s| :: b[i] == s[i] as int
    ensures 0 !in b
  {
    seq(|s|, i requires 0 <= i < |s| => s[i] as int)
  }

  lemma {:induction false} StrLenOfTerminated(b: seq<byte>)
    requires 0 !in b
    ensures 0 in b + [0]
    ensures StrLen(b + [0]) == |b|
  {
    if b != [] {
      assert (b + [0])[1..] == b[1..] + [0];
      StrLenOfTerminated(b[1..]);
    }
  }

  /** On ASCII text the C and the JavaScript estimator see the same classes:
      their class tests are the same ranges. */
  lemma AsciiClassesAgree(s: string)
    requires Ascii(s)
    ensures ClassesOf(AsciiBytes(s), ByteClass) == ClassesOf(s, ClassOf)
  {
    var b := AsciiBytes(s);
    assert forall i | 0 <= i < |s| :: ByteClass(b[i]) == ClassOf(s[i]);
    forall k | k in ClassesOf(b, ByteClass) ensures k in ClassesOf(s, ClassOf) {
      var i :| 0 <= i < |b| && ByteClass(b[i]) == k;
    }
    forall k | k in ClassesOf(s, ClassOf) ensures k in ClassesOf(b, ByteClass) {
      var i :| 0 <= i < |s| && ClassOf(s[i]) == k;
    }
  }

  /** The native estimate of an ASCII password, laid out as a C string. */
  lemma NativeBitsOfAscii(s: string, log: real -> real)
    requires Ascii(s)
    requires log(2.0) != 0.0
    ensures Terminated(Ptr(AsciiBytes(s) + [0]))
    ensures NativeBits(Ptr(AsciiBytes(s) + [0]), log)
            == if |s| == 0 then 0.0 else LengthTimesLog2(|s|, PoolSize(ClassesOf(s, ClassOf)), log)
  {
    var b := AsciiBytes(s);
    StrLenOfTerminated(b);
    assert Contents(b + [0]) == b;
    AsciiClassesAgree(s);
    if |s| > 0 {
      PoolOfPassword(s);
    }
  }

  /** An ASCII character is one UTF-16 unit. */
  lemma AsciiJsLength(s: string)
    requires Ascii(s)
    ensures JsLength(s) == |s|
  {
    assert forall i | 0 <= i < |s| :: s[i] as int < 0x1_0000;
    JsLengthBmp(s);
  }

  /** charsetPoolEntropy's estimate of an ASCII password in LengthTimesLog2's
      terms: its length is |s| and log2 is log divided by log 2. */
  lemma PoolBitsOfAscii(s: string, log: real -> real, log2: real -> real)
    requires Ascii(s)
    requires log(2.0) != 0.0
    requires forall x: real :: log2(x) == Log2Of(x, log)
    ensures PoolBits(s, log2)
            == if |s| == 0 then 0.0 else LengthTimesLog2(|s|, PoolSize(ClassesOf(s, ClassOf)), log)
  {
    AsciiJsLength(s);
    if |s| > 0 {
      var pool := PoolSize(ClassesOf(s, ClassOf)) as real;
      assert log2(pool) == Log2Of(pool, log);
    }
  }

  /** For an ASCII password the native estimate equals charsetPoolEntropy's,
      given that log2 is log divided by log 2: the lengths agree (one byte
      and one UTF-16 unit per character), and so do the pools. */
  lemma NativeAgreesWithPool(s: string, log: real -> real, log2: real -> real)
    requires Ascii(s)
    requires log(2.0) != 0.0
    requires forall x: real :: log2(x) == Log2Of(x, log)
    ensures Terminated(Ptr(AsciiBytes(s) + [0]))
    ensures NativeBits(Ptr(AsciiBytes(s) + [0]), log) == PoolBits(s, log2)
  {
    NativeBitsOfAscii(s, log);
    PoolBitsOfAscii(s, log, log2);
  }

  /** An embedded NUL ends the string calc_entropy sees: the bytes `a`, NUL,
      `b`, NUL are estimated as the one-character string `a`. */
  lemma NativeStopsAtNul(log: real -> real)
    requires log(2.0) != 0.0
    ensures Terminated(Ptr([97, 0, 98, 0]))
    ensures NativeBits(Ptr([97, 0, 98, 0]), log) == LengthTimesLog2(1, 26, log)
  {
    var mem: seq<byte> := [97, 0, 98, 0];
    assert mem[1..] == [0, 98, 0];
    assert StrLen(mem) == 1;
    assert Contents(mem) == [97];
    ClassesOfNonEmpty(Contents(mem), ByteClass);
    assert ClassesOf(Contents(mem), ByteClass) == {Lower};
    assert PoolSize({Lower}) == 26;
  }
}
