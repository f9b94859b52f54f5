/** Row-major indexing and counting, shared by the paging models. */
module Grid {

  /** Element c of row r, with w elements to a row. */
  function At(w: nat, r: int, c: int): int {
    r * w + c
  }

  lemma {:induction false} Times(w: nat, d: nat)
    requires 1 <= d
    ensures w <= d * w
  {
    if 1 < d {
      Times(w, d - 1);
      assert d * w == (d - 1) * w + w;
    }
  }

  lemma AtMonotone(w: nat, r: int, c: int, r': int, c': int)
    requires 0 <= c < w && 0 <= c' < w
    ensures r < r' ==> At(w, r, c) < At(w, r', c')
  {
    if r < r' {
      Times(w, r' - r);
      assert r' * w == r * w + (r' - r) * w;
    }
  }

  lemma AtInRange(w: nat, rows: nat, r: int, c: int)
    requires 0 <= r < rows && 0 <= c < w
    ensures 0 <= At(w, r, c) < rows * w
  {
    AtMonotone(w, -1, w - 1, r, c);
    AtMonotone(w, r, c, rows, 0);
  }

  lemma AtInjective(w: nat, r: int, c: int, r': int, c': int)
    requires 0 <= c < w && 0 <= c' < w && At(w, r, c) == At(w, r', c')
    ensures r == r' && c == c'
  {
    AtMonotone(w, r, c, r', c');
    AtMonotone(w, r', c', r, c);
  }

  lemma SplitAt(w: nat, r: int, c: int)
    requires 0 <= c < w
    ensures At(w, r, c) / w == r && At(w, r, c) % w == c
  {
    var a := At(w, r, c);
    assert a == At(w, a / w, a % w);
    AtInjective(w, a / w, a % w, r, c);
  }

  /** An address is determined by its page and its offset. */
  lemma SameAddress(w: nat, a: int, b: int)
    requires 0 < w
    ensures a / w == b / w && a % w == b % w ==> a == b
  {
    assert a == w * (a / w) + a % w;
    assert b == w * (b / w) + b % w;
  }

  // ------------------------------------------------------------------ division by counting

  /** How often w fits into a. */
  function Quotient(a: int, w: int): (q: int)
    ensures q >= 0 && (0 <= a < w ==> q == 0)
    decreases a
  {
    if w <= 0 || a < w then 0 else 1 + Quotient(a - w, w)
  }

  /** What is left over. */
  function Remainder(a: int, w: int): (r: int)
    ensures 0 <= a && 0 < w ==> 0 <= r < w
    ensures 0 <= a < w ==> r == a
    decreases a
  {
    if w <= 0 || a < w then a else Remainder(a - w, w)
  }

  /** They are what the program computes by division. */
  lemma {:induction false} Divides(a: nat, w: nat)
    requires 0 < w
    ensures Quotient(a, w) == a / w && Remainder(a, w) == a % w
  {
    if a >= w {
      Divides(a - w, w);
      SplitAt(w, (a - w) / w, (a - w) % w);
      SplitAt(w, 1 + (a - w) / w, (a - w) % w);
      assert a == At(w, 1 + (a - w) / w, (a - w) % w);
    }
  }

  /** A number is determined by its quotient and remainder. */
  lemma {:induction false} SameParts(w: nat, a: nat, b: nat)
    requires 0 < w && Quotient(a, w) == Quotient(b, w) && Remainder(a, w) == Remainder(b, w)
    ensures a == b
  {
    if a >= w && b >= w { SameParts(w, a - w, b - w); }
  }

  ghost function Below(k: nat): (r: set<int>)
    ensures |r| == k
    ensures forall x :: x in r <==> 0 <= x < k
  {
    if k == 0 then {} else Below(k - 1) + {k - 1}
  }

  lemma SubsetCard(a: set<int>, b: set<int>)
    requires a <= b
    ensures |a| <= |b|
  {
    assert |b - a| == |b| - |a|;
  }

  /** A set that f maps one to one into {0, ..., k-1} without hitting gap has fewer than k members. */
  lemma {:induction false} InjectionLeavesGap(a: set<int>, f: int -> int, k: nat, gap: int, image: set<int>)
    requires forall x | x in a :: 0 <= f(x) < k && f(x) != gap && f(x) !in image
    requires forall x, y | x in a && y in a && f(x) == f(y) :: x == y
    requires 0 <= gap < k && gap !in image && image <= Below(k)
    ensures |a| + |image| < k
    decreases a
  {
    if a == {} {
      SubsetCard(image + {gap}, Below(k));
    } else {
      var x :| x in a;
      InjectionLeavesGap(a - {x}, f, k, gap, image + {f(x)});
    }
  }

  lemma {:induction false} InjectionFits(a: set<int>, f: int -> int, k: nat, image: set<int>)
    requires forall x | x in a :: 0 <= f(x) < k && f(x) !in image
    requires forall x, y | x in a && y in a && f(x) == f(y) :: x == y
    requires image <= Below(k)
    ensures |a| + |image| <= k
    decreases a
  {
    if a == {} {
      SubsetCard(image, Below(k));
    } else {
      var x :| x in a;
      InjectionFits(a - {x}, f, k, image + {f(x)});
    }
  }
}
