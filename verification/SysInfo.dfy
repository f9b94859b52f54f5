/** Scaling of memory sizes in sysinfo: sizes counted in units of mem_unit bytes are turned into
    bytes if the total still fits in a machine word of any width. */
module SysInfo {

  function Pow2(k: nat): (r: nat)
    ensures r >= 1
  {
    if k == 0 then 1 else 2 * Pow2(k - 1)
  }

  /** The number of times that n can be halved before it is at most 1. */
  function Log2(n: nat): nat {
    if n <= 1 then 0 else 1 + Log2(n / 2)
  }

  datatype Info = Info(totalram: nat, freeram: nat, sharedram: nat, bufferram: nat, totalswap: nat,
                       freeswap: nat, totalhigh: nat, freehigh: nat, memUnit: nat)

  /** No part exceeds the total that it is part of. */
  predicate Sane(i: Info) {
    && i.freeram <= i.totalram && i.sharedram <= i.totalram && i.bufferram <= i.totalram
    && i.totalhigh <= i.totalram && i.freehigh <= i.totalram
    && i.freeswap <= i.totalswap
  }

  /** Each size times f. */
  function Times(i: Info, f: nat): Info {
    Info(i.totalram * f, i.freeram * f, i.sharedram * f, i.bufferram * f, i.totalswap * f,
         i.freeswap * f, i.totalhigh * f, i.freehigh * f, 1)
  }

  /** x << k in words of the given size. */
  function Shift(x: nat, k: nat, word: nat): nat
    requires word > 0
  {
    x * Pow2(k) % word
  }

  function Shifted(i: Info, k: nat, word: nat): Info
    requires word > 0
  {
    Info(Shift(i.totalram, k, word), Shift(i.freeram, k, word), Shift(i.sharedram, k, word),
         Shift(i.bufferram, k, word), Shift(i.totalswap, k, word), Shift(i.freeswap, k, word),
         Shift(i.totalhigh, k, word), Shift(i.freehigh, k, word), 1)
  }

  lemma {:induction false} Double(x: nat, k: nat)
    ensures x * Pow2(k + 1) == 2 * x * Pow2(k)
  {
    calc {
      x * Pow2(k + 1);
      x * (2 * Pow2(k));
      2 * x * Pow2(k);
    }
  }

  lemma Scale(x: nat, y: nat, f: nat)
    requires x <= y
    ensures x * f <= y * f
  {
  }

  /** A sum of two words, or twice a word, in words: it wraps around at most once. */
  lemma Wraps(a: nat, word: nat)
    requires 0 < word && a < 2 * word
    ensures a % word == if a < word then a else a - word
  {
    if a >= word { assert a == word + (a - word); }
  }

  /** The loop: shift total by the logarithm of unit, doubling it step by step. The test for a smaller
      result notices every overflow. */
  method ShiftTotal(total: nat, unit: nat, word: nat) returns (fits: bool, bitcount: nat)
    requires total < word
    ensures fits <==> total * Pow2(Log2(unit)) < word
    ensures fits ==> bitcount == Log2(unit)
  {
    bitcount := 0;
    var memUnit, memTotal := unit, total;
    while memUnit > 1
      invariant Log2(unit) == bitcount + Log2(memUnit)
      invariant memTotal == total * Pow2(bitcount) < word
      decreases memUnit
    {
      Double(total, bitcount);
      bitcount := bitcount + 1;
      memUnit := memUnit / 2;
      var savTotal := memTotal;
      Wraps(2 * savTotal, word);
      memTotal := 2 * memTotal % word;
      if memTotal < savTotal {
        Grows(total, bitcount, Log2(unit));
        return false, bitcount;
      }
    }
    return true, bitcount;
  }

  /** The true total, ram plus swap times the power of two, is a word. */
  predicate Fits(info: Info, word: nat) {
    (info.totalram + info.totalswap) * Pow2(Log2(info.memUnit)) < word
  }

  function Scaled(info: Info, word: nat): Info
    requires word > 0
  {
    if Fits(info, word) then Shifted(info, Log2(info.memUnit), word) else info
  }

  /** do_sysinfo from the sum on. If the unit is a power of two, either every size becomes size times
      unit, exactly, or the total in bytes is too large for a word and nothing changes. */
  method ScaleSizes(info: Info, word: nat) returns (r: Info)
    requires info.totalram < word && info.totalswap < word
    ensures r == Scaled(info, word)
    ensures Sane(info) && IsPow2(info.memUnit) ==>
      r == if (info.totalram + info.totalswap) * info.memUnit < word then Times(info, info.memUnit) else info
  {
    if Sane(info) && IsPow2(info.memUnit) { ScaledToBytes(info, word); }
    Wraps(info.totalram + info.totalswap, word);
    var memTotal := (info.totalram + info.totalswap) % word;
    if memTotal < info.totalram || memTotal < info.totalswap {
      Grows(info.totalram + info.totalswap, 0, Log2(info.memUnit));
      return info;
    }
    var fits, bitcount := ShiftTotal(memTotal, info.memUnit, word);
    if !fits { return info; }
    r := info.(memUnit := 1);
    r := r.(totalram := Shift(r.totalram, bitcount, word), freeram := Shift(r.freeram, bitcount, word));
    r := r.(sharedram := Shift(r.sharedram, bitcount, word), bufferram := Shift(r.bufferram, bitcount, word));
    r := r.(totalswap := Shift(r.totalswap, bitcount, word), freeswap := Shift(r.freeswap, bitcount, word));
    r := r.(totalhigh := Shift(r.totalhigh, bitcount, word), freehigh := Shift(r.freehigh, bitcount, word));
  }

  lemma {:induction false} Grows(x: nat, j: nat, k: nat)
    requires j <= k
    ensures x * Pow2(j) <= x * Pow2(k)
    decreases k - j
  {
    if j < k {
      Double(x, j);
      Grows(x, j + 1, k);
    }
  }

  lemma FitsOne(x: nat, total: nat, k: nat, word: nat)
    requires x <= total && total * Pow2(k) < word
    ensures Shift(x, k, word) == x * Pow2(k)
  {
    Scale(x, total, Pow2(k));
    Wraps(x * Pow2(k), word);
  }

  /** Sizes that are parts of the totals do not wrap around where the totals do not: each is
      multiplied by the power of two, exactly. */
  lemma NoWrapAround(i: Info, k: nat, word: nat)
    requires Sane(i) && (i.totalram + i.totalswap) * Pow2(k) < word
    ensures Shifted(i, k, word) == Times(i, Pow2(k))
  {
    forall x | 0 <= x <= i.totalram || 0 <= x <= i.totalswap ensures Shift(x, k, word) == x * Pow2(k) {
      FitsOne(x, i.totalram + i.totalswap, k, word);
    }
  }

  // ------------------------------------------------------------------ when the result is in bytes

  ghost predicate IsPow2(n: nat) {
    exists k :: n == Pow2(k)
  }

  lemma Pow2Iff(n: nat)
    ensures IsPow2(n) <==> n == Pow2(Log2(n))
  {
    if k :| n == Pow2(k) { LogOfPow(k); }
  }

  lemma ScaledToBytes(info: Info, word: nat)
    requires Sane(info) && IsPow2(info.memUnit) && word > 0
    ensures Scaled(info, word) ==
      if (info.totalram + info.totalswap) * info.memUnit < word then Times(info, info.memUnit) else info
  {
    Pow2Iff(info.memUnit);
    if Fits(info, word) { NoWrapAround(info, Log2(info.memUnit), word); }
  }

  /** What the sizes mean, whatever the unit. */
  function Bytes(i: Info): Info {
    Times(i, i.memUnit)
  }

  /** The sizes mean the same number of bytes afterwards, exactly when the unit is a power of two, or
      there is nothing to scale, or nothing was scaled. For any other unit they are wrong. */
  lemma BytesKeptIff(info: Info, word: nat)
    requires Sane(info) && word > 0
    ensures Bytes(Scaled(info, word)) == Bytes(info) <==>
            IsPow2(info.memUnit) || info.totalram + info.totalswap == 0 || !Fits(info, word)
  {
    var unit := info.memUnit;
    var f := Pow2(Log2(unit));
    Pow2Iff(unit);
    if Fits(info, word) {
      NoWrapAround(info, Log2(unit), word);
      assert Bytes(Scaled(info, word)) == Times(info, f);
      ExactIffPowerOfTwo(info.totalram, unit);
      ExactIffPowerOfTwo(info.totalswap, unit);
    }
  }

  lemma {:induction false} LogBounds(n: nat)
    requires n >= 1
    ensures Pow2(Log2(n)) <= n < 2 * Pow2(Log2(n))
  {
    if n > 1 { LogBounds(n / 2); }
  }

  /** Shifting x by the logarithm is multiplying it by the unit exactly when the unit is a power of
      two, or there is nothing to scale. For other units the scaled sizes are wrong. */
  lemma ExactIffPowerOfTwo(x: nat, unit: nat)
    ensures x * Pow2(Log2(unit)) == x * unit <==> x == 0 || unit == Pow2(Log2(unit))
  {
    if x > 0 && unit != Pow2(Log2(unit)) {
      if unit == 0 {
        assert x * Pow2(Log2(unit)) == x;
      } else {
        LogBounds(unit);
        Scale(1, x, unit - Pow2(Log2(unit)));
        assert x * unit == x * Pow2(Log2(unit)) + x * (unit - Pow2(Log2(unit)));
      }
    }
  }

  lemma {:induction false} LogOfPow(k: nat)
    ensures Log2(Pow2(k)) == k
  {
    if k > 0 {
      LogOfPow(k - 1);
      assert Pow2(k) / 2 == Pow2(k - 1);
    }
  }

  /** Three units of three bytes come out as six bytes, not nine, at any word size. */
  lemma NotAPowerOfTwo(word: nat)
    requires word > 6
    ensures var info := Info(3, 0, 0, 0, 0, 0, 0, 0, 3);
      Sane(info) && Scaled(info, word) == Info(6, 0, 0, 0, 0, 0, 0, 0, 1) && Bytes(info).totalram == 9
  {
    assert Log2(3) == 1 + Log2(1);
    assert Pow2(1) == 2 * Pow2(0);
    NoWrapAround(Info(3, 0, 0, 0, 0, 0, 0, 0, 3), 1, word);
  }
}
