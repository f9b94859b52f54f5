/** The naive substring search that the read interceptor uses. */
module Search {

  const NUL: char := '\0'

  /** A key buffer holds a string and then a terminator. */
  predicate Terminated(key: string) {
    |key| >= 1 && key[|key| - 1] == NUL && NUL !in key[..|key| - 1]
  }

  function Word(key: string): string
    requires |key| >= 1
  {
    key[..|key| - 1]
  }

  /** word occurs within the first tsize characters of target, at position t. */
  predicate OccursAt(target: string, tsize: int, word: string, t: nat) {
    t + |word| <= tsize <= |target| && target[t..t + |word|] == word
  }

  lemma OccursAgrees(target: string, tsize: int, word: string, t: nat, j: nat)
    requires j < |word|
    ensures OccursAt(target, tsize, word, t) ==> target[t + j] == word[j]
  {
    if OccursAt(target, tsize, word, t) { assert target[t..t + |word|][j] == word[j]; }
  }

  /** contstr. It looks for the terminator one past a character that matches, so with an empty key and
      a target that has the terminator among its characters it would leave the key's buffer. That is
      the only case in which it does, and then this returns overrun. */
  method Contains(target: string, tsize: int, key: string) returns (found: bool, overrun: bool)
    requires tsize <= |target| && Terminated(key)
    ensures overrun <==> Word(key) == [] && exists t: nat :: t < tsize && target[t] == NUL
    ensures found <==> Word(key) != [] && exists t: nat :: OccursAt(target, tsize, Word(key), t)
  {
    ghost var word := Word(key);
    var tindex := 0;
    while tindex < tsize
      invariant 0 <= tindex && (tindex <= tsize || tsize < 0)
      invariant word != [] ==> forall t: nat | t < tindex :: !OccursAt(target, tsize, word, t)
      invariant word == [] ==> forall t: nat | t < tindex <= tsize :: target[t] != NUL
    {
      var i := 0;
      while tindex + i < tsize && target[tindex + i] == key[i]
        invariant 0 <= i < |key| && (i == 0 || i < |word|) && tindex + i <= tsize
        invariant forall j | 0 <= j < i :: target[tindex + j] == word[j]
        decreases |word| - i
      {
        if i + 1 == |key| { return false, true; }
        assert i + 1 < |word| ==> key[i + 1] in word;
        if key[i + 1] == NUL {
          assert OccursAt(target, tsize, word, tindex);
          return true, false;
        }
        i := i + 1;
      }
      if i < |word| { OccursAgrees(target, tsize, word, tindex, i); }
      tindex := tindex + 1;
    }
    return false, false;
  }
}
