# PassGuard strength engine and generator, in Dafny

This project models the core of PassGuard, a browser password-strength meter and password generator:

- **Pool estimator** (`charsetPoolEntropy`): the password's length times log2 of a pool. The pool sums 26, 26, 10 and 32 for the lower-case, upper-case, digit and symbol classes present.
- **Shannon estimator** (`shannonEntropy`): a frequency table of the password's characters, then `-Σ p·log2 p` times the length.
- **Combiner** (`jsEntropy`): the larger of the two estimates.
- **Classifier**:
  - `bitsToScore` maps bits to a score of 0..100, with 128 bits as the ceiling.
  - `bitsToText` picks a label from half-open thresholds at 28, 36, 60 and 90 bits; a password on the common list gets a fixed message instead.
  - `pickColor` picks one of three colour tiers from the score.
- **Generator**:
  - `secureGenerate` draws one seed character per selected pool, with lower+upper+digits when none is selected, and fills up to the length from the joined pools.
  - It then shuffles the characters with the Fisher–Yates `shuffleArray` and slices them to the requested length.
  - `randomChar` picks `pool[r % n]`.
- **Native estimator** (`calc_entropy` in `entropy.c`): the pool estimate over the bytes of a C string, in one flag-setting pass.

Modules:

- `CharClass` (charclass.dfy): the four classes, the pool-size sum, and the set of classes a sequence touches.
- `Strength` (strength.dfy): the two JavaScript estimators and the combiner. A password is a Dafny `string` of code points.
  - `JsLength` is JavaScript's `length`, which counts UTF-16 code units.
  - `FrequencyTable` and `SumSurprisal` are the source's loops, and `CharsetPoolEntropy` its step-by-step pool sum. They are proved against the functions `Frequencies`, `Distinct`, `Surprisal` and `PoolBits`.
- `Classifier` (classifier.dfy): the score, the label and the colour tier, as functions of exact `real` bits. Labels are the strings main.js returns: the common-list result is the full sentence `Password is on common-password list - very weak.`, and the five labels are capitalised ("Very weak" … "Very strong").
- `Generator` (generator.dfy):
  - The random source is a stream `rng: nat -> Uint32` plus the position of the next draw. Every draw reads `rng(pos)`, and every method returns the position after its last draw.
  - `ShuffleArray` is the in-place loop over an `array`, proved equal to the function `FisherYates`, which is a permutation.
  - `SecureGenerate` runs the seed, fill, shuffle and slice steps, proved equal to the function `Generated`.
- `NativeEntropy` (native_entropy.dfy):
  - A C string is `Null` or memory holding a NUL. `StrLen` finds the first NUL, and `CalcEntropy` is the function body statement by statement.
  - `NativeAgreesWithPool` proves that the C and JavaScript estimates agree on NUL-free ASCII text. `NativeStopsAtNul` shows that calc_entropy reads only the bytes before an embedded NUL.

`Math.log2` and C's `log` are parameters, `log2: real -> real` and `log: real -> real`. No contract depends on a particular logarithm. What a member needs of it is a `requires`: `log(2.0) != 0.0` for the C formula, which divides by it, and specific values such as `log2(1) = 0` for some lemmas.

## Model

| member | source | states |
|---|---|---|
| CharClass.PoolSizeBounds | main.js:79-84 | any set of classes gives a pool of at most 94; a non-empty set gives at least 10; the pool is 0 exactly for no class |
| CharClass.PoolSizeIsSum | main.js:80-83 | adding a class not yet present adds exactly its size (26, 26, 10 or 32) |
| CharClass.ClassesOfSnoc | entropy.c:11-17 | one more element adds its own class to the classes present and nothing else |
| CharClass.ClassesOfPermutation | entropy.c:11-17 | the classes present depend only on the multiset of elements, not their order |
| Strength.JsLength | main.js:85 | `length` is between the number of code points and twice it, and is 0 only for the empty string |
| Strength.JsLengthBmp | main.js:85 | `length` equals the number of code points exactly when no character lies outside the Basic Multilingual Plane (both directions) |
| Strength.PoolOfPassword | main.js:79-84 | a non-empty password's pool lies in [10, 94], so the `Math.max(pool, 1)` floor never changes it |
| Strength.CharsetPoolEntropy | main.js:77-86 | the four class tests and the floor compute `length * log2(pool)` over the classes present (PoolBits); the empty password gives 0 |
| Strength.Distinct | main.js:91 | the table's key order: exactly the characters of the password, each once |
| Strength.FrequenciesFacts | main.js:91 | the table's keys are exactly the characters that occur, each with a count of at least 1 equal to its occurrences |
| Strength.CountSumIsLength | main.js:91-92 | the counts of the distinct characters sum to the number of code points |
| Strength.FrequencyTable | main.js:90-91 | the counting loop builds the table with exactly the characters that occur as keys, counts of at least 1, keys distinct in first-occurrence order, and counts summing to the number of code points |
| Strength.SumSurprisal | main.js:93-97 | the second loop accumulates `-p·log2(p)` over the keys in key order |
| Strength.EntropyPerSymbol | main.js:90-97 | the two loops together compute the per-symbol entropy of the table |
| Strength.ShannonEntropyOver | main.js:88-100 | the empty password gives 0; otherwise the result is the per-symbol entropy times the divisor |
| Strength.ShannonEntropyAsWritten | main.js:88-100 | shannonEntropy as written, dividing code-point counts by the UTF-16 length; the empty password gives 0 |
| Strength.ShannonEntropy | main.js:88-100 | shannonEntropy with the counts divided by the number of code points; the empty password gives 0 |
| Strength.ShannonProbabilitiesSumToOne | main.js:92-96 | with the corrected divisor the probabilities `freq[k] / len` sum to 1 |
| Strength.ShannonAsWrittenMassDeficit | main.js:91-95 | as written the probabilities sum to code points / code units, which is below 1 once a character lies outside the Basic Multilingual Plane |
| Strength.ShannonAsWrittenEmoji | main.js:91-95 | a one-emoji password has length 2 and probability mass 1/2 as written |
| Strength.ShannonAsWrittenEmojiBits | main.js:88-100 | as written, a one-emoji password scores 1 Shannon bit, where one repeated symbol should score 0 |
| Strength.ShannonAsWrittenAgreesOnBmp | main.js:92 | on Basic Multilingual Plane text the written and corrected Shannon models agree |
| Strength.RepeatedTable | main.js:91 | a password of one repeated character has that character as its only key, counted once per position |
| Strength.ShannonSingleSymbol | main.js:93-99 | one repeated symbol gives 0 Shannon bits, given log2(1) = 0 |
| Strength.JsEntropyAsWritten | main.js:102-107 | jsEntropy as written, over shannonEntropy as written: at least both estimates and equal to one of them; the empty password gives 0 |
| Strength.JsEntropy | main.js:102-107 | the same combination over the corrected Shannon estimate: at least both estimates and equal to one of them; the empty password gives 0 |
| Strength.JsEntropyAgreesOnBmp | main.js:102-107 | on Basic Multilingual Plane text the written and the corrected combiner give the same bits |
| Strength.JsEntropyAsWrittenEmoji | main.js:104-106 | under hypothetical log2 values (log2(1/2) = -1, log2(1) = 0 and log2(32) = 0, which no logarithm has), one emoji gives 1 bit as written and 0 corrected: the two combiners are different functions |
| Strength.RepeatedLowerPool | main.js:80-85 | a repeated lower-case letter of length L has pool bits L·log2(26) |
| Strength.RepeatedLowerLetter | main.js:102-107 | for a repeated lower-case letter of length L, pool bits are L·log2(26), Shannon bits 0 both as written and corrected, and both combiners return the pool value |
| Classifier.Round | main.js:112 | `Math.round` returns the integer n with n - 0.5 <= x < n + 0.5 |
| Classifier.BitsToScore | main.js:110-113 | non-negative bits give a score in 0..100; 128 bits or more give 100; the score is the integer nearest the capped percentage |
| Classifier.ScoreMonotone | main.js:110-113 | more bits never lower the score |
| Classifier.BitsToText | main.js:116-123 | the common-list message whenever the password is on the list, whatever the bits; otherwise one of the five labels |
| Classifier.LabelByThresholds | main.js:118-122 | the label's index is the number of thresholds reached, so each boundary belongs to the stronger label |
| Classifier.LabelMonotone | main.js:118-122 | more bits never give a weaker label |
| Classifier.LabelIntervals | main.js:118-122 | each label holds exactly on its half-open interval (<28, [28,36), [36,60), [60,90), >=90), in both directions |
| Classifier.NinetyBitsBoundary | main.js:121-122 | exactly 90 bits is "Very strong"; bits in [60, 90) are "Strong" |
| Classifier.PickColor | main.js:157-161 | the good tier exactly when score > 75, the warning tier exactly when 45 < score <= 75, the bad tier exactly when score <= 45 |
| Classifier.ColorOfBits | main.js:186-187 | as a function of bits, the tier is good from 96.64 bits on, warning on [58.24, 96.64), and bad below 58.24 |
| Classifier.VeryStrongOnWarningBar | main.js:186-191 | exactly 90 bits reads "Very strong" on a warning-coloured bar |
| Generator.RandomIndex | main.js:238 | `r % (i + 1)` is at most i, so every swap index has 0 <= j <= i |
| Generator.RandomChar | main.js:228-232 | `pool[r % pool.length]` is always a character of the pool |
| Generator.SelectedClasses | main.js:204-211 | between one and four classes are pushed, none twice |
| Generator.SelectedClassesAre | main.js:204-211 | a class is pushed exactly when its option is set, or (lower, upper, digits) when no option is set; the pushes keep the source's order |
| Generator.SelectedPools | main.js:199-211 | the pool list holds the class strings of the selected classes, in that order |
| Generator.Join | main.js:220 | the joined pool is non-empty and holds exactly the characters of the pools |
| Generator.SwapPermutes | main.js:239 | a swap keeps the length and the multiset |
| Generator.ShuffleStepsPermutes | main.js:236-240 | every prefix of the shuffle loop yields a permutation of its input |
| Generator.FisherYatesPermutes | main.js:235-241 | the whole shuffle keeps the length and the multiset |
| Generator.SwapElements | main.js:239 | the destructuring swap leaves the array as the swapped sequence |
| Generator.ShuffleArray | main.js:235-241 | the array ends as the Fisher–Yates shuffle of its old contents, a permutation of them, after one draw per index from length - 1 down to 1 |
| Generator.Seeds | main.js:214-217 | one seed per pool, the i-th drawn from the i-th pool |
| Generator.Fill | main.js:220-221 | the fill has the requested count, all drawn from the joined pool |
| Generator.SliceEnd | main.js:225 | `slice(0, length)`'s end: the length clamped to the array for length >= 0, and counted from the back for negative length |
| Generator.DrawSeeds | main.js:214-217 | the seeding loop pushes exactly the seeds and takes one draw per pool |
| Generator.DrawFill | main.js:220-221 | the fill loop appends exactly the fill characters and takes one draw per character |
| Generator.ShuffleAndSlice | main.js:224-225 | the shuffle then the slice yield the first SliceEnd characters of the shuffle |
| Generator.GeneratedLength | main.js:221-225 | a password of length >= 0 has exactly that many characters |
| Generator.GeneratedFromPools | main.js:220-225 | every character of the password is in the joined pool |
| Generator.GeneratedCoverage | main.js:213-225 | when length >= the number of pools, every pool contributes at least one character |
| Generator.GenerateFrom | main.js:213-225 | for a non-empty pool list the password is Generated, with exact length, characters from the joined pool, coverage when length >= the number of pools, and the number of draws taken |
| Generator.SecureGenerate | main.js:198-226 | the same four guarantees over the selected pools, and the number of draws taken |
| Generator.NoOptionsMeansDefault | main.js:211 | no selected class generates exactly what lower+upper+digits generates |
| Generator.PoolWithinClass | main.js:199-202 | every character of a class's pool string falls in that class |
| Generator.ShortLengthDropsAPool | main.js:225 | for 0 <= length < the number of pools, some selected pool is missing from the password, whatever the draws |
| NativeEntropy.StrLen | entropy.c:7 | the index of the first NUL: every earlier byte is non-zero |
| NativeEntropy.Contents | entropy.c:7 | the string calc_entropy reads contains no NUL |
| NativeEntropy.StrLenOfTerminated | entropy.c:7 | strlen of NUL-free bytes followed by a NUL is their number |
| NativeEntropy.ScanFlags | entropy.c:10-17 | after the loop each flag is 1 exactly when some byte of the string falls in its class |
| NativeEntropy.CalcEntropy | entropy.c:5-25 | NULL and the empty string give 0.0; otherwise the result is the length times log(pool)/log(2) over the classes present (NativeBits) |
| NativeEntropy.PoolGuardNeverFires | entropy.c:18-22 | for a non-empty string the pool lies in [10, 94], so the `pool <= 0` guard never fires |
| NativeEntropy.OrderIndependent | entropy.c:11-23 | strings holding the same bytes in any order get the same estimate |
| NativeEntropy.AsciiBytes | entropy.c:12 | the one-byte encoding of ASCII text: same length, byte i is character i's code, no NUL |
| NativeEntropy.AsciiClassesAgree | entropy.c:13-16 | on ASCII text the C byte tests and the JavaScript regular expressions find the same classes |
| NativeEntropy.NativeBitsOfAscii | entropy.c:5-23 | a NUL-free ASCII password laid out as a C string is 0.0 when empty and otherwise length times log2 (by change of base) of its JavaScript pool |
| NativeEntropy.AsciiJsLength | main.js:85 | ASCII text has one UTF-16 unit per character |
| NativeEntropy.PoolBitsOfAscii | main.js:77-86 | charsetPoolEntropy of ASCII text in the C formula's terms, when log2 is log over log 2 |
| NativeEntropy.NativeAgreesWithPool | entropy.c:18-23 | on NUL-free ASCII text calc_entropy and charsetPoolEntropy give the same bits, when log2 is log over log 2 |
| NativeEntropy.NativeStopsAtNul | entropy.c:7 | the bytes `a`, NUL, `b`, NUL give the estimate of the one-character string `a`: strlen stops at the first NUL |

## Left out

- UI and DOM: element lookups, `setStrength`, the listeners, clipboard copy and the feedback text. They only render.
- `debounce`: timers.
- WASM loading and the estimator dispatch in `analyzePassword` (the fallback to `jsEntropy` when the module is missing or throws) involve foreign calls, exceptions and asynchronous loading. The dispatch itself is unmodelled; both estimators it chooses between are modelled.
- `estimateCrackTime`: pure floating-point work (`Math.log`, `Math.pow`, `Math.round`, `isFinite`) with no structure beyond that arithmetic.
- Floating point: bits are exact reals, and `Math.log2` and `log` are parameters. Rounding of `len * log2(pool)` and of `-p·log2(p)` is not modelled.
- NativeEntropy.NativeAgreesWithPool: holds when `log2(x)` equals `log(x) / log(2)` exactly, which IEEE arithmetic does not promise. It is stated for NUL-free ASCII text only: calc_entropy cuts a password at an embedded NUL (`strlen`), while charsetPoolEntropy counts the whole string, so the two estimates disagree there (NativeEntropy.NativeStopsAtNul).
- Lone surrogates: a Dafny `string` holds only Unicode scalar values, so a JavaScript string with an unpaired surrogate has no model.
- `!password` for a non-string: the parameter is always a string here.
- Non-integer `length` in `secureGenerate`: it is an `int`. The generator button's fallback to 12 is UI.
- Generator.RandomChar: indexes code points, where `pool[r % pool.length]` indexes UTF-16 code units. The two agree on the four ASCII pools secureGenerate uses; Generator.GenerateFrom also accepts other non-empty strings, and for a pool holding characters outside the Basic Multilingual Plane it does not model the program.
- `crypto.getRandomValues` failing: the stream always yields a value.
- Uniformity and modulo bias of the draws: statistical properties, see the note on the stream below.
- The random source is a given stream of 32-bit values. The models say which draw each step consumes, and nothing about the draws' distribution.
- The C `(int)strlen` conversion is left out: a string longer than `INT_MAX` bytes would overflow it, and `len` is a `nat` here.
- `for (let k in freq)` key order: the model takes first-occurrence order. JavaScript orders integer-like keys ("0".."9") first. Only the order of the sum changes. That the sum does not depend on it is true of exact reals but is not proved here.
- Strength.JsEntropy: combines the corrected Shannon estimate, not main.js's; Strength.JsEntropyAsWritten is main.js's combiner, and Strength.JsEntropyAgreesOnBmp shows the two differ only on text outside the Basic Multilingual Plane.
- Strength.CharsetPoolEntropy: the contract states the pool without the `Math.max(pool, 1)` floor; Strength.PoolOfPassword shows why the floor never fires.
- Loop bodies that the source writes inline are separate methods here, so that each proof stays small: Generator.DrawSeeds, Generator.DrawFill, Generator.ShuffleAndSlice, Generator.SwapElements, NativeEntropy.ScanFlags and Strength.SumSurprisal. Each runs the same statements in the same order.

## Findings

| source | as written | input that shows it | evidently intended | confidence | as-written member | corrected member |
|---|---|---|---|---|---|---|
| main.js:91-96 | the counts range over code points (`for..of`), but each is divided by `password.length`, the number of UTF-16 code units | the password "😀": one code point of count 1, length 2, so p = 1/2, and the probabilities sum to 1/2 instead of 1 | divide by the number of characters counted, so that the p form a distribution and one repeated symbol scores 0 bits | medium, not executed | Strength.ShannonAsWrittenMassDeficit | Strength.ShannonProbabilitiesSumToOne |

The as-written model is Strength.ShannonEntropyAsWritten. Strength.ShannonAsWrittenEmoji and Strength.ShannonAsWrittenEmojiBits work out the input: a one-emoji password scores 1 bit as written. The corrected model is Strength.ShannonEntropy. Strength.JsEntropyAsWritten combines the estimate as written, and Strength.JsEntropy combines the corrected one. Strength.ShannonAsWrittenAgreesOnBmp shows that the two models differ only when a character lies outside the Basic Multilingual Plane.
