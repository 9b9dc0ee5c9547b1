/**
 * The four fixed character categories of the password generator and the
 * counting they support: how many characters of a password fall into one
 * alphabet, and why the four counts add up to the password's length.
 */
module Alphabets {
  import opened Sequences

  /** The upper-case category. */
  const Upper: string := "ABCDEFGHIJKLMNOPQRSTUVWXYZ"
  /** The lower-case category. */
  const Lower: string := "abcdefghijklmnopqrstuvwxyz"
  /** The numeric category. */
  const Numeric: string := "0123456789"
  /** The special category: 30 characters, the escaped backslash being one of them. */
  const Special: string := "!@#$%^&*()-_=+[]{};:,.<>?/\\|`~"

  /** The alphabet padding characters are drawn from: the four categories in order. */
  function AllChars(): (all: string)
    ensures |all| == 92
  {
    Upper + Lower + Numeric + Special
  }

  predicate IsAsciiUpper(c: char) { 'A' <= c <= 'Z' }
  predicate IsAsciiLower(c: char) { 'a' <= c <= 'z' }
  predicate IsAsciiDigit(c: char) { '0' <= c <= '9' }

  /** Each letter or digit alphabet is exactly its ASCII range. */
  lemma UpperIsRange(c: char)
    ensures c in Upper <==> IsAsciiUpper(c)
  {
  }

  lemma LowerIsRange(c: char)
    ensures c in Lower <==> IsAsciiLower(c)
  {
  }

  lemma NumericIsRange(c: char)
    ensures c in Numeric <==> IsAsciiDigit(c)
  {
  }

  lemma SpecialHasNoLetterOrDigit(c: char)
    requires c in Special
    ensures !IsAsciiUpper(c) && !IsAsciiLower(c) && !IsAsciiDigit(c)
  {
  }

  /** No character belongs to two different categories. */
  predicate Disjoint(a: string, b: string) {
    forall c :: c in a ==> c !in b
  }

  lemma AlphabetsDisjoint()
    ensures Disjoint(Upper, Lower) && Disjoint(Upper, Numeric) && Disjoint(Upper, Special)
    ensures Disjoint(Lower, Numeric) && Disjoint(Lower, Special) && Disjoint(Numeric, Special)
  {
    forall c | c in Upper ensures c !in Lower && c !in Numeric && c !in Special {
      UpperIsRange(c); LowerIsRange(c); NumericIsRange(c);
      if c in Special { SpecialHasNoLetterOrDigit(c); }
    }
    forall c | c in Lower ensures c !in Numeric && c !in Special {
      LowerIsRange(c); NumericIsRange(c);
      if c in Special { SpecialHasNoLetterOrDigit(c); }
    }
    forall c | c in Numeric ensures c !in Special {
      NumericIsRange(c);
      if c in Special { SpecialHasNoLetterOrDigit(c); }
    }
  }

  /** The number of positions of `s` holding a character of `alphabet`. */
  function CountIn(alphabet: string, s: string): (n: nat)
    ensures n <= |s|
  {
    if s == [] then 0
    else (if s[0] in alphabet then 1 else 0) + CountIn(alphabet, s[1..])
  }

  /** A string drawn entirely from `alphabet` counts every position. */
  lemma {:induction false} CountInAll(alphabet: string, s: string)
    requires forall i :: 0 <= i < |s| ==> s[i] in alphabet
    ensures CountIn(alphabet, s) == |s|
  {
    if s != [] {
      assert s[0] in alphabet;
      CountInAll(alphabet, s[1..]);
    }
  }

  lemma {:induction false} CountInConcat(alphabet: string, s: string, t: string)
    ensures CountIn(alphabet, s + t) == CountIn(alphabet, s) + CountIn(alphabet, t)
  {
    if s == [] {
      assert s + t == t;
    } else {
      assert (s + t)[1..] == s[1..] + t;
      CountInConcat(alphabet, s[1..], t);
    }
  }

  /** Removing the character at position `j` removes exactly its own contribution. */
  lemma CountInRemove(alphabet: string, s: string, j: nat)
    requires j < |s|
    ensures CountIn(alphabet, s) == CountIn(alphabet, s[..j] + s[j + 1..]) + (if s[j] in alphabet then 1 else 0)
  {
    assert s == s[..j] + ([s[j]] + s[j + 1..]);
    CountInConcat(alphabet, s[..j], [s[j]] + s[j + 1..]);
    CountInConcat(alphabet, [s[j]], s[j + 1..]);
    CountInConcat(alphabet, s[..j], s[j + 1..]);
  }

  /** A count depends only on the multiset of characters, not on their order. */
  lemma {:induction false} CountInPermutation(alphabet: string, s: string, t: string)
    requires multiset(s) == multiset(t)
    ensures CountIn(alphabet, s) == CountIn(alphabet, t)
    decreases |s|
  {
    if s == [] {
      EmptyPermutation(s, t);
    } else {
      var j := MatchHead(s, t);
      CountInPermutation(alphabet, s[1..], t[..j] + t[j + 1..]);
      CountInRemove(alphabet, t, j);
    }
  }

  /**
   * Over four pairwise disjoint alphabets, a string drawn from their union
   * splits its length exactly among the four counts.
   */
  lemma {:induction false} CountsPartition(a: string, b: string, c: string, d: string, s: string)
    requires Disjoint(a, b) && Disjoint(a, c) && Disjoint(a, d)
    requires Disjoint(b, c) && Disjoint(b, d) && Disjoint(c, d)
    requires forall i :: 0 <= i < |s| ==> s[i] in a + b + c + d
    ensures CountIn(a, s) + CountIn(b, s) + CountIn(c, s) + CountIn(d, s) == |s|
  {
    if s != [] {
      assert s[0] in a + b + c + d;
      CountsPartition(a, b, c, d, s[1..]);
    }
  }

  /** The four categories split the length of any string over the union alphabet. */
  lemma CategoriesPartition(s: string)
    requires forall i :: 0 <= i < |s| ==> s[i] in AllChars()
    ensures CountIn(Upper, s) + CountIn(Lower, s) + CountIn(Numeric, s) + CountIn(Special, s) == |s|
  {
    AlphabetsDisjoint();
    CountsPartition(Upper, Lower, Numeric, Special, s);
  }
}
