# Password generator: a verified model

This project models the password generator of the PasswordExercise repository.
It covers two components.

The first is `PasswordGenerator.GeneratePassword` and its helpers. It validates a
`PasswordRequirements` record. It then draws exactly the minimum number of
characters from each of four fixed alphabets: upper case, lower case, numeric
and special. It rejects the request when those draws exceed `MaxLength`. It
picks a padding count, pads from the union alphabet, and shuffles the result by
sorting on random keys.

The second is the request filter `ValidatePasswordRequirementsAttribute`. It
checks the same record against its own four rules, collects one message per
broken rule, and turns a non-empty list into a Bad Request.

Modules:

- `Alphabets` (alphabets.dfy): the four alphabet literals. The special
  alphabet has 30 characters, so the union has 92. Also here: the
  disjointness of the four alphabets, the count `CountIn(alphabet, s)` of a
  string's characters in one alphabet, and the lemmas the category bounds rest
  on. Counts add over concatenation, a reordering leaves them unchanged, and
  over the four disjoint alphabets they sum to the length.
- `Sequences` (sequences.dfy): one generic fact about permutations, used by the
  two permutation lemmas.
- `RandomSource` (random_source.dfy): the shared `System.Random`, as a class
  whose methods promise only their ranges: `Next(n)` in `[0, n)`, `Next(lo, hi)`
  in `[lo, hi)`, and `Next()` in `[0, Int32.MaxValue)`. The body is one
  arbitrary generator. Callers are verified against the ranges alone, so every
  property below holds for every sequence of draws.
- `PasswordGenerator` (password_generator.dfy): the requirements record, the two
  exceptions as a `Result`, `Validate` (the source's `Valiation`),
  `GetRandomChars`, `GetRandomNumber`, `Shuffle` (one key per character, then a
  stable sort by key), and `GeneratePassword` as a method that grows a
  character sequence and threads the random object.
- `RequestFilter` (request_filter.dfy): the filter's error list as a function
  `FilterErrors`, the same list built by appends in `CollectErrors`, and
  `OnActionExecuting` on a context object whose `result` it may set.

Behaviour of the source worth noting:

- The special alphabet has 30 characters (`\\` is one backslash), so the
  union alphabet has 92 characters.
- `Valiation` checks `MinLength > MaxLength` before any negativity
  (PasswordExercise/PasswordGenerator.cs:64-74), so `MinLength = -5,
  MaxLength = -10` raises `ArgumentException`.
- The category-total check runs after the category draws
  (PasswordExercise/PasswordGenerator.cs:45-48), so a rejected request has
  already consumed random draws.
- The padding count is drawn from `[max(0, MinLength - total), MaxLength - total]`
  (PasswordExercise/PasswordGenerator.cs:51-53), so the length can be anything
  in `[max(MinLength, total), MaxLength]`.

## Model

| member | source | states |
|---|---|---|
| `Alphabets.AllChars` | PasswordExercise/PasswordGenerator.cs:55 | the union alphabet used for padding has 92 characters |
| `Alphabets.UpperIsRange` | PasswordExercise/PasswordGenerator.cs:26 | a character is in the upper-case alphabet iff it lies in `'A'..'Z'` |
| `Alphabets.LowerIsRange` | PasswordExercise/PasswordGenerator.cs:27 | a character is in the lower-case alphabet iff it lies in `'a'..'z'` |
| `Alphabets.NumericIsRange` | PasswordExercise/PasswordGenerator.cs:28 | a character is in the numeric alphabet iff it lies in `'0'..'9'` |
| `Alphabets.SpecialHasNoLetterOrDigit` | PasswordExercise/PasswordGenerator.cs:29 | no special character is an ASCII letter or digit |
| `Alphabets.AlphabetsDisjoint` | PasswordExercise/PasswordGenerator.cs:26-29 | the four alphabets are pairwise disjoint |
| `Alphabets.CountInAll` | PasswordExercise/PasswordGenerator.cs:78-82 | a string drawn entirely from an alphabet has all its positions counted in that alphabet |
| `Alphabets.CountInConcat` | PasswordExercise/PasswordGenerator.cs:40-43 | appending a batch of characters (`AddRange`) adds its count in every alphabet |
| `Alphabets.CountInRemove` | PasswordExercise/PasswordGenerator.cs:93 | removing one character lowers a count by exactly that character's contribution |
| `Alphabets.CountInPermutation` | PasswordExercise/PasswordGenerator.cs:91-94 | two strings with the same multiset of characters have the same count in every alphabet, so shuffling preserves category counts |
| `Alphabets.CountsPartition` | PasswordExercise/PasswordGenerator.cs:26-29 | over four pairwise disjoint alphabets, a string from their union has its four counts summing to its length |
| `Alphabets.CategoriesPartition` | PasswordExercise/PasswordGenerator.cs:55 | a string over the union alphabet has its upper, lower, numeric and special counts summing to its length |
| `PasswordGenerator.Validate` | PasswordExercise/PasswordGenerator.cs:62-76 | `ArgumentException` iff `MinLength > MaxLength`; otherwise `ArgumentOutOfRangeException` iff any of the six fields is negative; otherwise success with the requirements unchanged |
| `PasswordGenerator.GetRandomChars` | PasswordExercise/PasswordGenerator.cs:78-83 | returns exactly `count` characters, each one a member of `source`, so all `count` are counted in `source` |
| `PasswordGenerator.GetRandomNumber` | PasswordExercise/PasswordGenerator.cs:85-89 | returns a value in the closed interval `[min, max]`, and `min` when the interval is empty |
| `PasswordGenerator.ValuesRemove` | PasswordExercise/PasswordGenerator.cs:93 | removing one keyed entry removes exactly its character from the characters' multiset |
| `PasswordGenerator.ValuesPermutation` | PasswordExercise/PasswordGenerator.cs:93 | reordering key/character pairs reorders their characters, so the character multiset is preserved |
| `PasswordGenerator.FirstMinimum` | PasswordExercise/PasswordGenerator.cs:93 | returns the first position holding the smallest key |
| `PasswordGenerator.SelectionStep` | PasswordExercise/PasswordGenerator.cs:93 | moving a smallest-key entry to the output keeps the output's keys ascending and no larger than any remaining key |
| `PasswordGenerator.OrderByKey` | PasswordExercise/PasswordGenerator.cs:93 | ordering by key returns a permutation of the key/character pairs whose keys ascend |
| `PasswordGenerator.Shuffle` | PasswordExercise/PasswordGenerator.cs:91-94 | the shuffled string is a permutation of its input (same multiset, hence same length) |
| `PasswordGenerator.CountInFiveParts` | PasswordExercise/PasswordGenerator.cs:40-56 | the count over the four category batches plus the padding is the sum of the five batch counts |
| `PasswordGenerator.ShuffledDrawsKeepFloors` | PasswordExercise/PasswordGenerator.cs:37-59 | after any reordering of the category draws and padding, the length is the sum of the batch lengths, every character is in the union, and each alphabet counts at least its own batch |
| `PasswordGenerator.GeneratePassword` | PasswordExercise/PasswordGenerator.cs:33-60 | `ArgumentException` (min above max) iff `MinLength > MaxLength`. `ArgumentOutOfRangeException` iff MinLength ≤ MaxLength and a field is negative. `ArgumentException` (total above max) iff validation passes and the minimums sum above `MaxLength`. Success iff the requirements are satisfiable. No draw is made when validation fails. A returned password has length in `[max(MinLength, total), MaxLength]`, uses only union characters, and meets each category minimum |
| `PasswordGenerator.ExactFitOver` | PasswordExercise/PasswordGenerator.cs:40-56 | over disjoint alphabets, if the minimums sum to `MaxLength` then a generated password has length `MaxLength` and meets each minimum exactly |
| `PasswordGenerator.ExactFit` | PasswordExercise/PasswordGenerator.cs:40-56 | when the minimums sum to `MaxLength`, a generated password has exactly `MaxLength` characters and exactly each category's minimum |
| `PasswordGenerator.PaddingIntervalNonEmpty` | PasswordExercise/PasswordGenerator.cs:51-53 | for satisfiable requirements `0 ≤ max(0, MinLength - total) ≤ MaxLength - total`, so at the call in `GeneratePassword` (which invokes this lemma there) the fallback of `GetRandomNumber` is never taken; the lower end plus the total is `max(MinLength, total)` |
| `RandomSource.Random.NextBelow` | PasswordExercise/PasswordGenerator.cs:81 | a draw in `[0, maxValue)`, and 0 when `maxValue` is 0 |
| `RandomSource.Random.NextInRange` | PasswordExercise/PasswordGenerator.cs:88 | a draw in `[minValue, maxValue)`, and `minValue` when the two are equal |
| `RandomSource.Random.Next` | PasswordExercise/PasswordGenerator.cs:93 | a draw in `[0, Int32.MaxValue)` |
| `RequestFilter.FilterErrorsReportBrokenRules` | PasswordGenerator.API/Filters/ValidatePasswordRequirementsAttribute.cs:14-30 | each message is in the list iff its rule is broken: `MinLength ≤ 0`, `MaxLength < MinLength`, a negative category minimum, the total above `MaxLength`. The list is empty iff none is broken |
| `RequestFilter.FilterErrorsBounded` | PasswordGenerator.API/Filters/ValidatePasswordRequirementsAttribute.cs:14-30 | the list has at most 4 entries, all of them rule messages |
| `RequestFilter.FilterErrorsInRuleOrder` | PasswordGenerator.API/Filters/ValidatePasswordRequirementsAttribute.cs:14-30 | messages appear in the order the rules are evaluated, with strictly increasing rule positions, so none repeats |
| `RequestFilter.NegativeReportedOnce` | PasswordGenerator.API/Filters/ValidatePasswordRequirementsAttribute.cs:22-24 | the negative-minimum message occurs once if any category minimum is negative, however many are, and otherwise not at all |
| `RequestFilter.CollectErrors` | PasswordGenerator.API/Filters/ValidatePasswordRequirementsAttribute.cs:14-30 | the list built by successive appends is the filter's error list |
| `RequestFilter.FilterVersusGenerator` | PasswordGenerator.API/Filters/ValidatePasswordRequirementsAttribute.cs:16-30 | the generator accepts a request iff the filter accepts it, or the filter's only complaint is `MinLength ≤ 0` with `MinLength = 0` |
| `RequestFilter.BoundRequirements` | PasswordGenerator.API/Filters/ValidatePasswordRequirementsAttribute.cs:11-12 | requirements are found iff the `req` argument exists and holds a `PasswordRequirements` value, and then they are that value |
| `RequestFilter.OnActionExecuting` | PasswordGenerator.API/Filters/ValidatePasswordRequirementsAttribute.cs:9-41 | without a well-typed `req` argument the result becomes a Bad Request with the fixed message. With one, it becomes a Bad Request carrying the error list iff that list is non-empty, and is otherwise left unchanged |

## Left out

- Randomness: `System.Random`'s algorithm and the uniformity of its draws are not modelled, and neither are the statistical quality of the sort-by-random-key shuffle or the spread of padding lengths. Only the ranges of the draws are used.
- The static shared `_random` and thread safety: the random object is passed explicitly and concurrency is not modelled.
- OrderByKey: its ensures states ascending keys and a permutation of the key/character pairs. It does not state the stability of .NET's `OrderBy`, although the selection picks the first smallest key.
- GetRandomChars: requires a non-negative count. `Enumerable.Range` would throw on a negative count, but every caller passes validated, non-negative counts.
- GetRandomNumber, GeneratePassword, FilterVersusGenerator: do not model the 32-bit wrap of `max + 1` at PasswordGenerator.cs:88. With `MaxLength - total == Int32.MaxValue` (for example `MinLength = 0`, `MaxLength = Int32.MaxValue`, all minimums 0) the wrapped bound makes `Next` throw `ArgumentOutOfRangeException`, whereas the model, on unbounded integers, returns a password. So GeneratePassword's error iffs and "success iff satisfiable", and FilterVersusGenerator's equivalence, hold for the unbounded model only.
- CollectErrors: does not model the 32-bit wrap of `totalRequired` at ValidatePasswordRequirementsAttribute.cs:26-27. Large minimums can wrap to a small total and pass the rule, while the model's unbounded sum reports them. FilterVersusGenerator relies on the unbounded sum as well.
- Exception messages: the `ArgumentOutOfRangeException` is modelled with the source's one string argument, which .NET treats as a parameter name. The framework's formatting of the final message is not modelled.
- ASP.NET plumbing: the context is reduced to its argument map and its result. The JSON object `{ Errors = errors }` is `ErrorList(errors)`. Other action results are one `OtherResult` value, and a null result is `None`.
- PasswordGenerator.API/Controllers/PasswordController.cs, SystemRandomProvider.cs and IRandomProvider.cs are not part of this model. The controller only forwards to the generator, and the generator does not use the two random-provider files.
- The tests' Unicode classification (`char.IsUpper`, `IsSymbol`, `IsPunctuation`) is replaced by membership in the alphabet literals.
