/**
 * The password generator: validation of a requirements record, one draw per
 * required character from each category, padding from the union alphabet up
 * to a randomly chosen length, and a shuffle by random keys.
 */
module PasswordGenerator {
  import opened Alphabets
  import opened RandomSource
  import opened Sequences

  /** The caller's composition constraints; every field is a signed 32-bit value in the source. */
  datatype PasswordRequirements = PasswordRequirements(
    maxLength: int,
    minLength: int,
    minUpperAlphaChars: int,
    minLowerAlphaChars: int,
    minNumericChars: int,
    minSpecialChars: int)

  /**
   * The two exceptions the generator raises. The one string given to
   * ArgumentOutOfRangeException is its parameter-name argument.
   */
  datatype Exception =
    | ArgumentException(message: string)
    | ArgumentOutOfRangeException(paramName: string)

  datatype Result<T> = Success(value: T) | Failure(error: Exception)

  const MinAboveMaxMessage: string := "MinLength cannot be greater than MaxLength"
  const NegativeMessage: string := "Expected an exception when one the requirements is negative."
  const RequiredAboveMaxMessage: string := "Total minimum required characters exceed maximum password length."

  /** None of the six fields is negative. */
  predicate NoneNegative(req: PasswordRequirements) {
    req.minLength >= 0 && req.maxLength >= 0 &&
    req.minUpperAlphaChars >= 0 && req.minLowerAlphaChars >= 0 &&
    req.minNumericChars >= 0 && req.minSpecialChars >= 0
  }

  /** The number of characters the four category minimums demand together. */
  function Required(req: PasswordRequirements): int {
    req.minUpperAlphaChars + req.minLowerAlphaChars + req.minNumericChars + req.minSpecialChars
  }

  /** The requirements the generator turns into a password rather than an exception. */
  predicate Satisfiable(req: PasswordRequirements) {
    req.minLength <= req.maxLength && NoneNegative(req) && Required(req) <= req.maxLength
  }

  function Max(a: int, b: int): int { if a < b then b else a }

  /**
   * What a returned password promises, over four given alphabets: a length
   * between the effective floor (the larger of MinLength and the category
   * total) and MaxLength, only characters of the union of the alphabets, and
   * at least each category's minimum.
   */
  predicate IsGeneratedOver(req: PasswordRequirements, password: string,
                            upper: string, lower: string, numeric: string, special: string) {
    Max(req.minLength, Required(req)) <= |password| <= req.maxLength &&
    (forall i :: 0 <= i < |password| ==> password[i] in upper + lower + numeric + special) &&
    CountIn(upper, password) >= req.minUpperAlphaChars &&
    CountIn(lower, password) >= req.minLowerAlphaChars &&
    CountIn(numeric, password) >= req.minNumericChars &&
    CountIn(special, password) >= req.minSpecialChars
  }

  /** What a returned password promises, over the generator's own four alphabets. */
  predicate IsGeneratedFor(req: PasswordRequirements, password: string) {
    IsGeneratedOver(req, password, Upper, Lower, Numeric, Special)
  }

  /**
   * `Valiation`: MinLength above MaxLength is checked first, so it wins over
   * any negative field; then any negative field; otherwise the requirements
   * come back unchanged.
   */
  function Validate(req: PasswordRequirements): (r: Result<PasswordRequirements>)
    ensures r == Failure(ArgumentException(MinAboveMaxMessage)) <==> req.minLength > req.maxLength
    ensures r == Failure(ArgumentOutOfRangeException(NegativeMessage)) <==>
              req.minLength <= req.maxLength && !NoneNegative(req)
    ensures r.Success? <==> req.minLength <= req.maxLength && NoneNegative(req)
    ensures r.Success? ==> r.value == req
  {
    if req.minLength > req.maxLength then
      Failure(ArgumentException(MinAboveMaxMessage))
    else if req.minLength < 0 || req.maxLength < 0 ||
            req.minUpperAlphaChars < 0 || req.minLowerAlphaChars < 0 ||
            req.minSpecialChars < 0 || req.minNumericChars < 0 then
      Failure(ArgumentOutOfRangeException(NegativeMessage))
    else
      Success(req)
  }

  /** `GetRandomChars`: `count` independent draws from `source`, with repetition. */
  method GetRandomChars(rng: Random, source: string, count: int) returns (chars: string)
    requires |source| > 0 && 0 <= count
    modifies rng
    ensures |chars| == count
    ensures forall i :: 0 <= i < |chars| ==> chars[i] in source
    ensures CountIn(source, chars) == count
  {
    chars := [];
    var i := 0;
    while i < count
      invariant 0 <= i <= count
      invariant |chars| == i
      invariant forall k :: 0 <= k < |chars| ==> chars[k] in source
    {
      var index := rng.NextBelow(|source|);
      chars := chars + [source[index]];
      i := i + 1;
    }
    CountInAll(source, chars);
  }

  /** `GetRandomNumber`: a draw in the closed interval [min, max], or `min` when the interval is empty. */
  method GetRandomNumber(rng: Random, min: int, max: int) returns (n: int)
    modifies rng
    ensures max < min ==> n == min
    ensures min <= max ==> min <= n <= max
  {
    if max < min {
      return min;
    }
    n := rng.NextInRange(min, max + 1);
  }

  /** The characters of a keyed sequence, in its order. */
  function Values(keyed: seq<(int, char)>): (chars: string)
    ensures |chars| == |keyed|
  {
    seq(|keyed|, i requires 0 <= i < |keyed| => keyed[i].1)
  }

  /** Taking out the entry at position `j` takes out exactly its character. */
  lemma ValuesRemove(keyed: seq<(int, char)>, j: nat)
    requires j < |keyed|
    ensures multiset(Values(keyed)) == multiset(Values(keyed[..j] + keyed[j + 1..])) + multiset{keyed[j].1}
  {
    var vs := Values(keyed);
    assert Values(keyed[..j] + keyed[j + 1..]) == vs[..j] + vs[j + 1..];
    assert vs == vs[..j] + [vs[j]] + vs[j + 1..];
  }

  /** Reordering keyed entries reorders their characters the same way. */
  lemma {:induction false} ValuesPermutation(a: seq<(int, char)>, b: seq<(int, char)>)
    requires multiset(a) == multiset(b)
    ensures multiset(Values(a)) == multiset(Values(b))
    decreases |a|
  {
    if a == [] {
      EmptyPermutation(a, b);
    } else {
      var j := MatchHead(a, b);
      ValuesPermutation(a[1..], b[..j] + b[j + 1..]);
      ValuesRemove(b, j);
      ValuesRemove(a, 0);
      assert a[..0] + a[1..] == a[1..];
    }
  }

  predicate KeysAscending(keyed: seq<(int, char)>) {
    forall i, j :: 0 <= i < j < |keyed| ==> keyed[i].0 <= keyed[j].0
  }

  /** The position of the first entry with the smallest key. */
  method FirstMinimum(keyed: seq<(int, char)>) returns (m: nat)
    requires keyed != []
    ensures m < |keyed|
    ensures forall j :: 0 <= j < |keyed| ==> keyed[m].0 <= keyed[j].0
    ensures forall j :: 0 <= j < m ==> keyed[m].0 < keyed[j].0
  {
    m := 0;
    var i := 1;
    while i < |keyed|
      invariant m < i <= |keyed|
      invariant forall j :: 0 <= j < i ==> keyed[m].0 <= keyed[j].0
      invariant forall j :: 0 <= j < m ==> keyed[m].0 < keyed[j].0
    {
      if keyed[i].0 < keyed[m].0 {
        m := i;
      }
      i := i + 1;
    }
  }

  /** Every key in `front` is at most every key in `back`. */
  predicate KeysBelow(front: seq<(int, char)>, back: seq<(int, char)>) {
    forall i, j :: 0 <= i < |front| && 0 <= j < |back| ==> front[i].0 <= back[j].0
  }

  /**
   * One step of the selection: moving a smallest-key entry from the pending
   * entries to the end of the ordered ones keeps the ordered keys ascending
   * and below the rest, and moves one entry between the two multisets.
   */
  lemma SelectionStep(ordered: seq<(int, char)>, pending: seq<(int, char)>, m: nat)
    requires m < |pending|
    requires KeysAscending(ordered) && KeysBelow(ordered, pending)
    requires forall j :: 0 <= j < |pending| ==> pending[m].0 <= pending[j].0
    ensures KeysAscending(ordered + [pending[m]])
    ensures KeysBelow(ordered + [pending[m]], pending[..m] + pending[m + 1..])
    ensures multiset(pending) == multiset(pending[..m] + pending[m + 1..]) + multiset{pending[m]}
  {
    var rest := pending[..m] + pending[m + 1..];
    assert pending == pending[..m] + [pending[m]] + pending[m + 1..];
    forall j | 0 <= j < |rest| ensures rest[j] in pending {
      if j < m { assert rest[j] == pending[j]; } else { assert rest[j] == pending[j + 1]; }
    }
  }

  /**
   * `OrderBy` on the drawn keys: repeatedly moves the first entry with the
   * smallest remaining key to the output, which keeps entries with equal keys
   * in their original order.
   */
  method OrderByKey(keyed: seq<(int, char)>) returns (ordered: seq<(int, char)>)
    ensures multiset(ordered) == multiset(keyed)
    ensures KeysAscending(ordered)
  {
    ordered := [];
    var pending := keyed;
    while pending != []
      invariant multiset(ordered) + multiset(pending) == multiset(keyed)
      invariant KeysAscending(ordered) && KeysBelow(ordered, pending)
      decreases |pending|
    {
      var m := FirstMinimum(pending);
      SelectionStep(ordered, pending, m);
      ordered := ordered + [pending[m]];
      pending := pending[..m] + pending[m + 1..];
    }
  }

  /** `Shuffle`: draws one key per character, then orders the characters by their keys. */
  method Shuffle(rng: Random, chars: string) returns (shuffled: string)
    modifies rng
    ensures multiset(shuffled) == multiset(chars)
  {
    var keyed: seq<(int, char)> := [];
    var i := 0;
    while i < |chars|
      invariant 0 <= i <= |chars|
      invariant Values(keyed) == chars[..i]
    {
      var key := rng.Next();
      keyed := keyed + [(key, chars[i])];
      assert Values(keyed) == chars[..i + 1];
      i := i + 1;
    }
    assert chars[..i] == chars;
    var ordered := OrderByKey(keyed);
    ValuesPermutation(ordered, keyed);
    shuffled := Values(ordered);
  }

  /** A count over five concatenated parts is the sum of the parts' counts. */
  lemma CountInFiveParts(alphabet: string, p1: string, p2: string, p3: string, p4: string, p5: string)
    ensures CountIn(alphabet, p1 + p2 + p3 + p4 + p5) ==
            CountIn(alphabet, p1) + CountIn(alphabet, p2) + CountIn(alphabet, p3) +
            CountIn(alphabet, p4) + CountIn(alphabet, p5)
  {
    CountInConcat(alphabet, p1 + p2 + p3 + p4, p5);
    CountInConcat(alphabet, p1 + p2 + p3, p4);
    CountInConcat(alphabet, p1 + p2, p3);
    CountInConcat(alphabet, p1, p2);
  }

  /**
   * Whatever order the shuffle produces, the draws of each category are all
   * still there: the count of alphabet `a` is at least the number of draws
   * from `a`, and every character comes from the union of the alphabets.
   */
  lemma ShuffledDrawsKeepFloors(a: string, b: string, c: string, d: string,
                                fromA: string, fromB: string, fromC: string, fromD: string,
                                padding: string, password: string)
    requires forall i :: 0 <= i < |fromA| ==> fromA[i] in a
    requires forall i :: 0 <= i < |fromB| ==> fromB[i] in b
    requires forall i :: 0 <= i < |fromC| ==> fromC[i] in c
    requires forall i :: 0 <= i < |fromD| ==> fromD[i] in d
    requires forall i :: 0 <= i < |padding| ==> padding[i] in a + b + c + d
    requires multiset(password) == multiset(fromA + fromB + fromC + fromD + padding)
    ensures |password| == |fromA| + |fromB| + |fromC| + |fromD| + |padding|
    ensures forall i :: 0 <= i < |password| ==> password[i] in a + b + c + d
    ensures CountIn(a, password) >= |fromA| && CountIn(b, password) >= |fromB|
    ensures CountIn(c, password) >= |fromC| && CountIn(d, password) >= |fromD|
  {
    var drawn := fromA + fromB + fromC + fromD + padding;
    assert |password| == |multiset(password)| == |drawn|;
    forall i | 0 <= i < |password| ensures password[i] in a + b + c + d {
      assert password[i] in multiset(drawn);
    }
    CountInAll(a, fromA);
    CountInAll(b, fromB);
    CountInAll(c, fromC);
    CountInAll(d, fromD);
    CountInFiveParts(a, fromA, fromB, fromC, fromD, padding);
    CountInFiveParts(b, fromA, fromB, fromC, fromD, padding);
    CountInFiveParts(c, fromA, fromB, fromC, fromD, padding);
    CountInFiveParts(d, fromA, fromB, fromC, fromD, padding);
    CountInPermutation(a, password, drawn);
    CountInPermutation(b, password, drawn);
    CountInPermutation(c, password, drawn);
    CountInPermutation(d, password, drawn);
  }

  /**
   * `GeneratePassword`: validation first (no draw happens when it fails),
   * then the category draws, the category-total check, the padding count,
   * the padding draws and the shuffle.
   */
  method GeneratePassword(rng: Random, req: PasswordRequirements) returns (r: Result<string>)
    modifies rng
    ensures r == Failure(ArgumentException(MinAboveMaxMessage)) <==> req.minLength > req.maxLength
    ensures r == Failure(ArgumentOutOfRangeException(NegativeMessage)) <==>
              req.minLength <= req.maxLength && !NoneNegative(req)
    ensures r == Failure(ArgumentException(RequiredAboveMaxMessage)) <==>
              req.minLength <= req.maxLength && NoneNegative(req) && Required(req) > req.maxLength
    ensures r.Success? <==> Satisfiable(req)
    ensures Validate(req).Failure? ==> unchanged(rng)
    ensures r.Success? ==> IsGeneratedFor(req, r.value)
  {
    var validated := Validate(req);
    if validated.Failure? {
      return Failure(validated.error);
    }
    var requirements := validated.value;
    var passwordChars: string := [];

    var upper := GetRandomChars(rng, Upper, requirements.minUpperAlphaChars);
    passwordChars := passwordChars + upper;
    var lower := GetRandomChars(rng, Lower, requirements.minLowerAlphaChars);
    passwordChars := passwordChars + lower;
    var numeric := GetRandomChars(rng, Numeric, requirements.minNumericChars);
    passwordChars := passwordChars + numeric;
    var special := GetRandomChars(rng, Special, requirements.minSpecialChars);
    passwordChars := passwordChars + special;

    var requiredLength := |passwordChars|;
    if requiredLength > requirements.maxLength {
      return Failure(ArgumentException(RequiredAboveMaxMessage));
    }

    assert requiredLength == Required(requirements);
    PaddingIntervalNonEmpty(requirements);
    var remainingLength := GetRandomNumber(rng, Max(0, requirements.minLength - requiredLength),
                                           requirements.maxLength - requiredLength);
    var padding := GetRandomChars(rng, AllChars(), remainingLength);
    passwordChars := passwordChars + padding;

    var password := Shuffle(rng, passwordChars);
    ShuffledDrawsKeepFloors(Upper, Lower, Numeric, Special, upper, lower, numeric, special, padding, password);
    return Success(password);
  }

  /**
   * Over four disjoint alphabets, when the category minimums add up to
   * MaxLength there is no room for padding: the password has exactly
   * MaxLength characters and exactly the minimum of each category.
   */
  lemma ExactFitOver(req: PasswordRequirements, password: string, a: string, b: string, c: string, d: string)
    requires Disjoint(a, b) && Disjoint(a, c) && Disjoint(a, d)
    requires Disjoint(b, c) && Disjoint(b, d) && Disjoint(c, d)
    requires Satisfiable(req) && Required(req) == req.maxLength
    requires IsGeneratedOver(req, password, a, b, c, d)
    ensures |password| == req.maxLength
    ensures CountIn(a, password) == req.minUpperAlphaChars
    ensures CountIn(b, password) == req.minLowerAlphaChars
    ensures CountIn(c, password) == req.minNumericChars
    ensures CountIn(d, password) == req.minSpecialChars
  {
    CountsPartition(a, b, c, d, password);
  }

  /** The same, for the generator's four alphabets (which are disjoint). */
  lemma ExactFit(req: PasswordRequirements, password: string)
    requires Satisfiable(req) && Required(req) == req.maxLength
    requires IsGeneratedFor(req, password)
    ensures |password| == req.maxLength
    ensures CountIn(Upper, password) == req.minUpperAlphaChars
    ensures CountIn(Lower, password) == req.minLowerAlphaChars
    ensures CountIn(Numeric, password) == req.minNumericChars
    ensures CountIn(Special, password) == req.minSpecialChars
  {
    AlphabetsDisjoint();
    ExactFitOver(req, password, Upper, Lower, Numeric, Special);
  }

  /** The padding interval of a satisfiable request is never empty, so the fallback branch is never taken. */
  lemma PaddingIntervalNonEmpty(req: PasswordRequirements)
    requires Satisfiable(req)
    ensures 0 <= Max(0, req.minLength - Required(req)) <= req.maxLength - Required(req)
    ensures Required(req) + Max(0, req.minLength - Required(req)) == Max(req.minLength, Required(req))
  {
  }
}
