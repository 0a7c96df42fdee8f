// console_logger/getopt.h, permute_args: exchange two adjacent blocks of an
// array in place by following gcd(|left|, |right|) cycles of positions.
module Permutation {
  import opened Gcds

  /** s with the blocks [start, mid) and [mid, end) exchanged. */
  function Exchanged<T>(s: seq<T>, start: nat, mid: nat, end: nat): seq<T>
    requires start <= mid <= end <= |s|
  {
    s[..start] + s[mid..end] + s[start..mid] + s[end..]
  }

  // ---- The positions visited by one cycle -------------------------------

  /** One move of the scanning position, relative to the left block. */
  function Move(left: nat, right: nat, p: nat): nat {
    if p >= left then p - left else p + right
  }

  /** The position after t moves of the cycle that begins at left + i. */
  function Walk(left: nat, right: nat, i: nat, t: nat): (p: nat)
    ensures i < right ==> p < left + right
  {
    if t == 0 then left + i else Move(left, right, Walk(left, right, i, t - 1))
  }

  /** Where the element that belongs at position q was before the exchange. */
  function Source(left: nat, right: nat, q: nat): nat {
    if q < right then q + left else q - right
  }

  /** What one cycle visits: distinct positions, exactly those congruent to i. */
  ghost predicate IsCycle(left: nat, right: nat, g: nat, n: nat, i: nat) {
    && (forall t: nat :: t <= n ==> Walk(left, right, i, t) < left + right)
    && (forall t: nat :: t <= n && g > 0 ==> Walk(left, right, i, t) % g == i)
    && Walk(left, right, i, n) == left + i
    && (forall s: nat, t: nat :: s < t < n ==> Walk(left, right, i, s) != Walk(left, right, i, t))
    && (forall q: nat :: q < left + right && g > 0 && q % g == i ==>
          exists t: nat :: t < n && Walk(left, right, i, t) == q)
  }

  // ---- The same walk with the common divisor taken out ------------------

  lemma NoWrap(a: nat, b: nat, k: int, n: nat)
    requires a < n && b < n && a == b + k * n
    ensures a == b
  {
    PositiveFactor(k, n);
    Distribute(0, k, n);
    PositiveFactor(-k, n);
  }

  /** Each move adds right, up to a multiple of the total length. */
  lemma {:induction false} WalkCongruence(l: nat, r: nat, t: nat) returns (k: int)
    requires r > 0
    ensures Walk(l, r, 0, t) < l + r
    ensures Walk(l, r, 0, t) == l + t * r - k * (l + r)
  {
    if t == 0 {
      k := 0;
    } else {
      k := WalkCongruence(l, r, t - 1);
      Distribute(t, 1, r);
      if Walk(l, r, 0, t - 1) >= l {
        Distribute(k, 1, l + r);
        k := k + 1;
      }
    }
  }

  lemma {:induction false} WalkScales(l: nat, r: nat, g: nat, i: nat, t: nat)
    requires i < g && r > 0
    ensures Walk(l * g, r * g, i, t) == Walk(l, r, 0, t) * g + i
  {
    if t == 0 {
      assert Walk(l, r, 0, 0) == l;
    } else {
      WalkScales(l, r, g, i, t - 1);
      MoveScales(l, r, g, i, Walk(l, r, 0, t - 1));
    }
  }

  lemma MoveScales(l: nat, r: nat, g: nat, i: nat, p: nat)
    requires i < g
    ensures Move(l * g, r * g, p * g + i) == Move(l, r, p) * g + i
  {
    Distribute(p, l, g);
    Distribute(p, r, g);
    Distribute(l, p, g);
    if p >= l {
      assert (p - l) * g >= 0;
    } else {
      PositiveFactor(l - p, g);
    }
  }

  /** A multiple of n that coprime r carries to a multiple of n. */
  lemma CoprimeCancels(n: nat, r: nat, u: int, v: int, d: int, k: int) returns (c: int)
    requires u * r + v * n == 1 && d * r == k * n
    ensures d == c * n
  {
    c := u * k + v * d;
    CombinationIsMultiple(n, k, d, u, v);
    Associate(d, u, r);
    Associate(u, d, r);
    Associate(v, d, n);
    Distribute(u * r, v * n, d);
    Associate(d, u * r, 1);
    Associate(u, r, d);
    assert u * (d * r) == (u * r) * d;
    assert v * (d * n) == (v * n) * d by { Associate(v, n, d); }
  }

  lemma WalkInjective(l: nat, r: nat, u: int, v: int, s: nat, t: nat)
    requires l > 0 && r > 0 && u * r + v * (l + r) == 1
    requires s < t < l + r
    ensures Walk(l, r, 0, s) != Walk(l, r, 0, t)
  {
    var n := l + r;
    var ks := WalkCongruence(l, r, s);
    var kt := WalkCongruence(l, r, t);
    if Walk(l, r, 0, s) == Walk(l, r, 0, t) {
      Distribute(t, s, r);
      Distribute(kt, ks, n);
      var c := CoprimeCancels(n, r, u, v, t - s, kt - ks);
      PositiveFactor(c, n);
    }
  }

  lemma WalkReturns(l: nat, r: nat)
    requires l > 0 && r > 0
    ensures Walk(l, r, 0, l + r) == l
  {
    var n := l + r;
    var k := WalkCongruence(l, r, n);
    Distribute(r, k, n);
    NoWrap(Walk(l, r, 0, n), l, r - k, n);
  }

  lemma Divide(e: int, n: nat) returns (q: int, t: nat)
    requires n > 0
    ensures e == q * n + t && t < n
  {
    q, t := e / n, e % n;
  }

  lemma WalkCovers(l: nat, r: nat, u: int, v: int, d: nat) returns (t: nat)
    requires l > 0 && r > 0 && u * r + v * (l + r) == 1
    requires d < l + r
    ensures t < l + r && Walk(l, r, 0, t) == d
  {
    var n := l + r;
    var q;
    q, t := Divide(u * (d - l), n);
    var k := WalkCongruence(l, r, t);
    var c := SolveCongruence(n, r, u, v, d - l, q, t);
    Distribute(c, k, n);
    NoWrap(Walk(l, r, 0, t), d, c - k, n);
  }

  lemma SolveCongruence(n: int, r: int, u: int, v: int, e: int, q: int, t: int) returns (c: int)
    requires u * r + v * n == 1 && u * e == q * n + t
    ensures t * r == e + c * n
  {
    c := -(v * e) - q * r;
    assert t * r == (u * e) * r - (q * n) * r by { Distribute(u * e, q * n, r); }
    assert (u * e) * r == e - (v * e) * n by {
      Distribute(u * r, v * n, e);
      assert (u * e) * r == (u * r) * e by { Associate(u, e, r); Associate(u, r, e); }
      assert (v * e) * n == (v * n) * e by { Associate(v, e, n); Associate(v, n, e); }
    }
    assert (q * n) * r == (q * r) * n by { Associate(q, n, r); Associate(q, r, n); }
    Distribute(-(v * e), q * r, n);
    assert (-(v * e)) * n == -((v * e) * n);
  }

  // ---- Putting the divisor back -----------------------------------------

  /** Coprime cofactors of the two block lengths. */
  lemma Reduce(left: nat, right: nat) returns (l: nat, r: nat, u: int, v: int)
    requires left > 0 && right > 0
    ensures var g := Gcd(left, right);
      && left == l * g && right == r * g && l > 0 && r > 0
      && u * r + v * (l + r) == 1
      && (left + right) / g == l + r
      && left + right == (l + r) * g
  {
    var x, y, k, m := Bezout(left, right);
    var g := Gcd(left, right);
    l, r := k, m;
    u, v := y - x, x;
    Distribute(l, r, g);
    QuotientOf(left + right, g, l + r, 0);
    CombinationIsMultiple(g, l, r, x, y);
    UnitFactor(x * l + y * r, g);
    Distribute(l, r, x);
    Distribute(y, x, r);
  }

  lemma UnitFactor(e: int, g: nat)
    requires g > 0 && e * g == g
    ensures e == 1
  {
    Distribute(e, 1, g);
    PositiveFactor(e, g);
    PositiveFactor(e - 1, g);
  }

  /** The number of moves in each cycle. */
  function CycleLength(left: nat, right: nat): nat
    requires right > 0
  {
    (left + right) / Gcd(left, right)
  }

  lemma VisitsInRange(left: nat, right: nat, i: nat, t: nat)
    requires left > 0 && right > 0 && i < Gcd(left, right)
    ensures i < right && Walk(left, right, i, t) < left + right
    ensures Walk(left, right, i, t) % Gcd(left, right) == i
  {
    var g := Gcd(left, right);
    var l, r, u, v := Reduce(left, right);
    CyclesFit(left, right);
    var w := WalkCongruence(l, r, t);
    WalkScales(l, r, g, i, t);
    QuotientOf(Walk(left, right, i, t), g, Walk(l, r, 0, t), i);
  }

  lemma VisitsDistinct(left: nat, right: nat, i: nat, s: nat, t: nat)
    requires left > 0 && right > 0 && i < Gcd(left, right)
    requires s < t < CycleLength(left, right)
    ensures Walk(left, right, i, s) != Walk(left, right, i, t)
  {
    var g := Gcd(left, right);
    var l, r, u, v := Reduce(left, right);
    WalkInjective(l, r, u, v, s, t);
    WalkScales(l, r, g, i, s);
    WalkScales(l, r, g, i, t);
    UnequalScaled(Walk(l, r, 0, s), Walk(l, r, 0, t), g);
  }

  /** Two visits are to the same position only if they are the same visit. */
  lemma VisitsTell(left: nat, right: nat, i: nat, s: nat, t: nat)
    requires left > 0 && right > 0 && i < Gcd(left, right)
    requires s < CycleLength(left, right) && t < CycleLength(left, right)
    ensures Walk(left, right, i, s) == Walk(left, right, i, t) <==> s == t
  {
    if s < t {
      VisitsDistinct(left, right, i, s, t);
    } else if t < s {
      VisitsDistinct(left, right, i, t, s);
    }
  }

  lemma VisitsReturn(left: nat, right: nat, i: nat)
    requires left > 0 && right > 0 && i < Gcd(left, right)
    ensures Walk(left, right, i, CycleLength(left, right)) == left + i
  {
    var l, r, u, v := Reduce(left, right);
    WalkScales(l, r, Gcd(left, right), i, l + r);
    WalkReturns(l, r);
  }

  lemma VisitsCover(left: nat, right: nat, i: nat, q: nat) returns (t: nat)
    requires left > 0 && right > 0 && i < Gcd(left, right)
    requires q < left + right && q % Gcd(left, right) == i
    ensures t < CycleLength(left, right) && Walk(left, right, i, t) == q
  {
    var g := Gcd(left, right);
    var l, r, u, v := Reduce(left, right);
    QuotientBound(q, g, l + r);
    t := WalkCovers(l, r, u, v, q / g);
    WalkScales(l, r, g, i, t);
  }

  /** The cycles are disjoint, all of length (left + right) / gcd, and together
      cover both blocks: cycle i visits exactly the positions congruent to i. */
  lemma CyclesPartitionBlocks(left: nat, right: nat, i: nat)
    requires left > 0 && right > 0 && i < Gcd(left, right)
    ensures IsCycle(left, right, Gcd(left, right), CycleLength(left, right), i)
  {
    var n := CycleLength(left, right);
    forall t: nat | t <= n
      ensures Walk(left, right, i, t) < left + right && Walk(left, right, i, t) % Gcd(left, right) == i
    {
      VisitsInRange(left, right, i, t);
    }
    VisitsReturn(left, right, i);
    forall s: nat, t: nat | s < t < n
      ensures Walk(left, right, i, s) != Walk(left, right, i, t)
    {
      VisitsDistinct(left, right, i, s, t);
    }
    forall q: nat | q < left + right && q % Gcd(left, right) == i
      ensures exists t: nat :: t < n && Walk(left, right, i, t) == q
    {
      var t := VisitsCover(left, right, i, q);
    }
  }

  lemma CyclesFit(left: nat, right: nat)
    requires left > 0 && right > 0
    ensures Gcd(left, right) <= right
    ensures CycleLength(left, right) > 0
  {
    var l, r, u, v := Reduce(left, right);
    PositiveFactor(r, Gcd(left, right));
  }

  lemma UnequalScaled(a: nat, b: nat, g: nat)
    requires a != b && g > 0
    ensures a * g != b * g
  {
  }

  lemma QuotientBound(q: nat, g: nat, n: nat)
    requires g > 0 && q < n * g
    ensures 0 <= q / g < n && q == (q / g) * g + q % g
  {
    Distribute(n, q / g, g);
    PositiveFactor(n - q / g, g);
  }

  // ---- The exchange as a function on the block ---------------------------

  function Swapped<T>(s: seq<T>, p: nat, c: nat): (r: seq<T>)
    requires p < |s| && c < |s|
  {
    s[p := s[c]][c := s[p]]
  }

  /** The block after j moves of cycle i. */
  function AfterMoves<T>(s: seq<T>, left: nat, right: nat, i: nat, j: nat): (r: seq<T>)
    requires |s| == left + right && i < right
    ensures |r| == |s|
  {
    if j == 0 then s
    else Swapped(AfterMoves(s, left, right, i, j - 1), Walk(left, right, i, j), left + i)
  }

  /** The block after the first k cycles, each of n moves. */
  function AfterCycles<T>(s: seq<T>, left: nat, right: nat, n: nat, k: nat): (r: seq<T>)
    requires |s| == left + right && k <= right
    ensures |r| == |s|
  {
    if k == 0 then s
    else AfterMoves(AfterCycles(s, left, right, n, k - 1), left, right, k - 1, n)
  }

  /** One exchange, element by element. */
  lemma OneMove<T>(s: seq<T>, left: nat, right: nat, i: nat, j: nat, q: nat)
    requires |s| == left + right && i < right && j > 0 && q < left + right
    ensures var before := AfterMoves(s, left, right, i, j - 1);
      AfterMoves(s, left, right, i, j)[q]
        == before[if q == left + i then Walk(left, right, i, j)
                  else if q == Walk(left, right, i, j) then left + i else q]
  {
  }

  /** The visit at which the element at visit t was before move j. */
  function Before(j: nat, t: nat): nat {
    if t == 0 then j else if t == j then 0 else t
  }

  /** The visit at which the element at visit t was before the first j moves. */
  function Origin(j: nat, t: nat): nat {
    if t == 0 then j else if t <= j then t - 1 else t
  }

  lemma MoveVisits<T>(s: seq<T>, left: nat, right: nat, i: nat, n: nat, j: nat, t: nat)
    requires |s| == left + right && left > 0 && right > 0 && i < Gcd(left, right) && i < right
    requires n == CycleLength(left, right) && 0 < j < n && t < n
    ensures AfterMoves(s, left, right, i, j)[Walk(left, right, i, t)]
      == AfterMoves(s, left, right, i, j - 1)[Walk(left, right, i, Before(j, t))]
  {
    OneMove(s, left, right, i, j, Walk(left, right, i, t));
    assert Walk(left, right, i, 0) == left + i;
    VisitsTell(left, right, i, t, 0);
    VisitsTell(left, right, i, t, j);
  }

  /** While cycle i, of n moves, is at move j: every position passed holds the
      element its predecessor had, the cycle's start holds the element displaced
      last, and the positions still ahead are untouched. */
  lemma {:induction false} DuringCycle<T>(s: seq<T>, left: nat, right: nat, i: nat, n: nat, j: nat, t: nat)
    requires |s| == left + right && left > 0 && right > 0 && i < Gcd(left, right) && i < right
    requires n == CycleLength(left, right) && j < n && t < n
    ensures AfterMoves(s, left, right, i, j)[Walk(left, right, i, t)] == s[Walk(left, right, i, Origin(j, t))]
  {
    if j == 0 {
      assert AfterMoves(s, left, right, i, 0) == s;
    } else {
      MoveVisits(s, left, right, i, n, j, t);
      DuringCycle(s, left, right, i, n, j - 1, Before(j, t));
      assert Origin(j - 1, Before(j, t)) == Origin(j, t);
    }
  }

  lemma {:induction false} OtherCyclesUntouched<T>(s: seq<T>, left: nat, right: nat, i: nat, j: nat, q: nat)
    requires |s| == left + right && left > 0 && right > 0 && i < Gcd(left, right) && i < right
    requires q < left + right && q % Gcd(left, right) != i
    ensures AfterMoves(s, left, right, i, j)[q] == s[q]
  {
    if j == 0 {
      assert AfterMoves(s, left, right, i, 0) == s;
    } else {
      OtherCyclesUntouched(s, left, right, i, j - 1, q);
      VisitsInRange(left, right, i, 0);
      VisitsInRange(left, right, i, j);
    }
  }

  /** The last move of a cycle exchanges its start with itself. */
  lemma LastMove<T>(s: seq<T>, left: nat, right: nat, i: nat, q: nat)
    requires |s| == left + right && left > 0 && right > 0 && i < Gcd(left, right) && i < right && q < left + right
    ensures var n := CycleLength(left, right);
      n > 0 && AfterMoves(s, left, right, i, n)[q] == AfterMoves(s, left, right, i, n - 1)[q]
  {
    CyclesFit(left, right);
    VisitsReturn(left, right, i);
    OneMove(s, left, right, i, CycleLength(left, right), q);
  }

  /** A whole cycle moves each of its elements to the next position. */
  lemma CycleMovesAll<T>(s: seq<T>, left: nat, right: nat, i: nat, q: nat)
    requires |s| == left + right && left > 0 && right > 0 && i < Gcd(left, right) && i < right
    requires q < left + right && q % Gcd(left, right) == i
    ensures AfterMoves(s, left, right, i, CycleLength(left, right))[q] == s[Source(left, right, q)]
  {
    var n := CycleLength(left, right);
    var t := VisitsCover(left, right, i, q);
    LastMove(s, left, right, i, q);
    DuringCycle(s, left, right, i, n, n - 1, t);
    if t == 0 {
      VisitsReturn(left, right, i);
      WalkBack(left, right, i, n);
    } else {
      WalkBack(left, right, i, t);
    }
  }

  lemma WalkBack(left: nat, right: nat, i: nat, t: nat)
    requires i < right && t > 0
    ensures Source(left, right, Walk(left, right, i, t)) == Walk(left, right, i, t - 1)
  {
  }

  lemma {:induction false} AfterCyclesAt<T>(s: seq<T>, left: nat, right: nat, g: nat, n: nat, k: nat, q: nat)
    requires |s| == left + right && left > 0 && right > 0
    requires g == Gcd(left, right) && n == CycleLength(left, right)
    requires k <= g <= right && q < left + right
    ensures AfterCycles(s, left, right, n, k)[q] == s[if q % g < k then Source(left, right, q) else q]
  {
    if k == 0 {
      assert q % g >= 0;
    } else {
      var before := AfterCycles(s, left, right, n, k - 1);
      if q % g == k - 1 {
        CycleMovesAll(before, left, right, k - 1, q);
        SourceKeepsClass(left, right, q);
        AfterCyclesAt(s, left, right, g, n, k - 1, Source(left, right, q));
      } else {
        OtherCyclesUntouched(before, left, right, k - 1, n, q);
        AfterCyclesAt(s, left, right, g, n, k - 1, q);
      }
    }
  }

  lemma ShiftKeepsClass(q: int, d: int, k: int, g: nat)
    requires g > 0 && d == k * g
    ensures (q + d) % g == q % g
  {
    Distribute(q / g, k, g);
    QuotientOf(q + d, g, q / g + k, q % g);
  }

  lemma SourceKeepsClass(left: nat, right: nat, q: nat)
    requires left > 0 && right > 0 && q < left + right
    ensures Source(left, right, q) % Gcd(left, right) == q % Gcd(left, right)
  {
    var l, r, u, v := Reduce(left, right);
    ShiftKeepsClass(q, left, l, Gcd(left, right));
    ShiftKeepsClass(q - right, right, r, Gcd(left, right));
  }

  lemma SourceSpellsExchange<T>(s: seq<T>, r: seq<T>, left: nat, right: nat)
    requires |s| == |r| == left + right
    requires forall q: nat :: q < left + right ==> r[q] == s[Source(left, right, q)]
    ensures r == s[left..] + s[..left]
  {
  }

  /** Following all gcd cycles exchanges the two blocks. */
  lemma AllCyclesExchange<T>(s: seq<T>, left: nat, right: nat)
    requires |s| == left + right && left > 0 && right > 0 && Gcd(left, right) <= right
    ensures AfterCycles(s, left, right, CycleLength(left, right), Gcd(left, right))
      == s[left..] + s[..left]
  {
    var g, n := Gcd(left, right), CycleLength(left, right);
    var r := AfterCycles(s, left, right, n, g);
    forall q: nat | q < left + right
      ensures r[q] == s[Source(left, right, q)]
    {
      AfterCyclesAt(s, left, right, g, n, g, q);
      assert q % g < g;
    }
    SourceSpellsExchange(s, r, left, right);
  }

  // ---- The exchange in place ---------------------------------------------

  /** An array that is `whole` but for the contents of [start, start + |block|). */
  ghost predicate Holds<T>(a: array<T>, whole: seq<T>, start: nat, block: seq<T>)
    reads a
  {
    start + |block| <= |whole| && a[..] == whole[..start] + block + whole[start + |block|..]
  }

  /** The exchange of the elements at pos and cstart. */
  method SwapInBlock<T>(a: array<T>, pos: nat, cstart: nat, ghost whole: seq<T>, ghost start: nat, ghost block: seq<T>)
    requires Holds(a, whole, start, block)
    requires start <= pos < start + |block| && start <= cstart < start + |block|
    modifies a
    ensures Holds(a, whole, start, Swapped(block, pos - start, cstart - start))
  {
    var swap := a[pos];
    a[pos] := a[cstart];
    a[cstart] := swap;
  }

  /** The inner loop: one cycle of the exchange, begun at mid + i. */
  method FollowCycle<T>(a: array<T>, start: nat, mid: nat, end: nat, i: nat, cyclelen: nat,
                        ghost whole: seq<T>, ghost block: seq<T>)
    requires start < mid < end && |block| == end - start && i < end - mid
    requires Holds(a, whole, start, block)
    modifies a
    ensures Holds(a, whole, start, AfterMoves(block, mid - start, end - mid, i, cyclelen))
  {
    var cstart := mid + i;
    var pos := cstart;
    for j := 0 to cyclelen
      invariant pos == start + Walk(mid - start, end - mid, i, j)
      invariant Holds(a, whole, start, AfterMoves(block, mid - start, end - mid, i, j))
    {
      if pos >= mid {
        pos := pos - (mid - start);
      } else {
        pos := pos + (end - mid);
      }
      assert pos == start + Walk(mid - start, end - mid, i, j + 1);
      SwapInBlock(a, pos, cstart, whole, start, AfterMoves(block, mid - start, end - mid, i, j));
    }
  }

  /** console_logger/getopt.h, permute_args: the two blocks trade places, each
      in its old order, and nothing outside them moves. */
  method PermuteArgs<T>(start: nat, mid: nat, end: nat, a: array<T>)
    requires start < mid < end <= a.Length
    modifies a
    ensures a[..] == Exchanged(old(a[..]), start, mid, end)
  {
    var nnonopts, nopts := mid - start, end - mid;
    var ncycle := ComputeGcd(nnonopts, nopts);
    var cyclelen := (end - start) / ncycle;
    ghost var whole, block := a[..], a[start..end];
    CyclesFit(nnonopts, nopts);
    assert |block| == nnonopts + nopts && cyclelen == CycleLength(nnonopts, nopts);
    for i := 0 to ncycle
      invariant Holds(a, whole, start, AfterCycles(block, nnonopts, nopts, cyclelen, i))
    {
      FollowCycle(a, start, mid, end, i, cyclelen, whole, AfterCycles(block, nnonopts, nopts, cyclelen, i));
    }
    ExchangeComplete(whole, start, mid, end, block, AfterCycles(block, nnonopts, nopts, cyclelen, ncycle));
  }

  /** When the block has been rotated the two blocks have been exchanged. */
  lemma ExchangeInWhole<T>(whole: seq<T>, start: nat, mid: nat, end: nat, block: seq<T>)
    requires start <= mid <= end <= |whole| && block == whole[start..end]
    ensures whole[..start] + (block[mid - start..] + block[..mid - start]) + whole[end..]
      == Exchanged(whole, start, mid, end)
  {
  }

  lemma ExchangeComplete<T>(whole: seq<T>, start: nat, mid: nat, end: nat, block: seq<T>, r: seq<T>)
    requires start < mid < end <= |whole| && block == whole[start..end]
    requires Gcd(mid - start, end - mid) <= end - mid
    requires var left, right := mid - start, end - mid;
      r == AfterCycles(block, left, right, CycleLength(left, right), Gcd(left, right))
    ensures whole[..start] + r + whole[end..] == Exchanged(whole, start, mid, end)
  {
    AllCyclesExchange(block, mid - start, end - mid);
    ExchangeInWhole(whole, start, mid, end, block);
  }
}
