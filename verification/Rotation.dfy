/** The rotated task orders of a campaign, and the balance they are designed for. */
module Rotation {

  /** The order that starts at position `k`. */
  function Rotate(order: seq<string>, k: nat): (r: seq<string>)
    requires order != []
    ensures |r| == |order|
  {
    order[k % |order|..] + order[..k % |order|]
  }

  /** One rotation per chain. */
  function ChainOrders(order: seq<string>, chains: nat): seq<seq<string>>
    requires order != []
  {
    seq(chains, k requires 0 <= k < chains => Rotate(order, k))
  }

  /** Chain `k` of arm `i` takes the rotations from position `i` on. */
  function ArmOrder(order: seq<string>, chains: nat, i: nat, k: nat): seq<string>
    requires order != [] && k < chains
  {
    ChainOrders(order, chains)[(k + i) % chains]
  }

  ghost predicate Distinct(order: seq<string>) {
    forall a, b :: 0 <= a < b < |order| ==> order[a] != order[b]
  }

  /** Among chains `lo..hi` of arm `i`, how many run `order[q]` at position `p`. */
  ghost function CountAt(order: seq<string>, chains: nat, i: nat, p: nat, q: nat, lo: nat, hi: nat): nat
    requires order != [] && p < |order| && q < |order| && lo <= hi <= chains
    decreases hi - lo
  {
    if lo == hi then 0
    else
      CountAt(order, chains, i, p, q, lo, hi - 1)
      + if ArmOrder(order, chains, i, hi - 1)[p] == order[q] then 1 else 0
  }

  /** Numbers below `hi`, from `lo` on, that are `x` modulo `n`. */
  ghost function Residues(n: nat, x: nat, lo: nat, hi: nat): nat
    requires 0 < n && lo <= hi
    decreases hi - lo
  {
    if lo == hi then 0 else Residues(n, x, lo, hi - 1) + if (hi - 1) % n == x then 1 else 0
  }

  lemma RotatedTask(order: seq<string>, k: nat, p: nat)
    requires order != [] && p < |order|
    ensures Rotate(order, k)[p] == order[(p + k % |order|) % |order|]
  {
    var n := |order|;
    var r := k % n;
    if p < n - r {
      DivUnique(p + r, 0, p + r, n);
    } else {
      DivUnique(p + r, 1, p + r - n, n);
    }
  }

  /** The start of the rotation that puts `order[q]` at position `p`. */
  function StartFor(n: nat, p: nat, q: nat): (x: nat)
    requires p < n && q < n
    ensures x < n
  {
    if q >= p then q - p else q + n - p
  }

  lemma StartIsRight(n: nat, p: nat, q: nat, r: nat)
    requires p < n && q < n && r < n
    ensures (p + r) % n == q <==> r == StartFor(n, p, q)
  {
    if p + r >= n { DivUnique(p + r, 1, p + r - n, n); } else { DivUnique(p + r, 0, p + r, n); }
  }

  /** A task is at a position exactly when the chain's rotation has the right residue. */
  lemma TaskAtIff(order: seq<string>, chains: nat, i: nat, k: nat, p: nat, q: nat)
    requires Distinct(order) && order != [] && k < chains && p < |order| && q < |order|
    ensures ArmOrder(order, chains, i, k)[p] == order[q]
       <==> (k + i) % chains % |order| == StartFor(|order|, p, q)
  {
    var n := |order|;
    var j := (k + i) % chains;
    RotatedTask(order, j, p);
    StartIsRight(n, p, q, j % n);
    var t := (p + j % n) % n;
    assert order[t] == order[q] <==> t == q;
  }

  lemma {:induction false} ResiduesSplit(n: nat, x: nat, lo: nat, mid: nat, hi: nat)
    requires 0 < n && lo <= mid <= hi
    ensures Residues(n, x, lo, hi) == Residues(n, x, lo, mid) + Residues(n, x, mid, hi)
    decreases hi - mid
  {
    if mid < hi { ResiduesSplit(n, x, lo, mid, hi - 1); }
  }

  /** One chain, by how many places its rotation is ahead of the arm's first. */
  lemma OneChain(order: seq<string>, chains: nat, i: nat, k: nat, p: nat, q: nat)
    requires Distinct(order) && order != [] && k < chains && p < |order| && q < |order|
    ensures var s := i % chains;
            ArmOrder(order, chains, i, k)[p] == order[q] <==>
              (if k + s < chains then k + s else k + s - chains) % |order| == StartFor(|order|, p, q)
  {
    hide ArmOrder, StartFor;
    TaskAtIff(order, chains, i, k, p, q);
    ShiftMod(k, i, chains);
  }

  /** Before the wrap-around: chains lo..hi use rotations lo + s .. hi + s. */
  lemma {:induction false} CountStraight(order: seq<string>, chains: nat, i: nat, p: nat, q: nat, lo: nat, hi: nat)
    requires Distinct(order) && order != [] && p < |order| && q < |order| && lo <= hi <= chains && 0 < chains
    requires hi + i % chains <= chains
    ensures CountAt(order, chains, i, p, q, lo, hi)
         == Residues(|order|, StartFor(|order|, p, q), lo + i % chains, hi + i % chains)
    decreases hi - lo
  {
    hide ArmOrder, StartFor;
    if lo < hi {
      CountStraight(order, chains, i, p, q, lo, hi - 1);
      OneChain(order, chains, i, hi - 1, p, q);
    }
  }

  /** After the wrap-around: chains lo..hi use rotations lo + s - chains .. */
  lemma {:induction false} CountWrapped(order: seq<string>, chains: nat, i: nat, p: nat, q: nat, lo: nat, hi: nat)
    requires Distinct(order) && order != [] && p < |order| && q < |order| && lo <= hi <= chains && 0 < chains
    requires chains <= lo + i % chains
    ensures CountAt(order, chains, i, p, q, lo, hi)
         == Residues(|order|, StartFor(|order|, p, q), lo + i % chains - chains, hi + i % chains - chains)
    decreases hi - lo
  {
    hide ArmOrder, StartFor;
    if lo < hi {
      CountWrapped(order, chains, i, p, q, lo, hi - 1);
      OneChain(order, chains, i, hi - 1, p, q);
    }
  }

  lemma ShiftMod(k: nat, i: nat, c: nat)
    requires k < c
    ensures (k + i) % c == if k + i % c < c then k + i % c else k + i % c - c
  {
    var s := i % c;
    assert i == (i / c) * c + s;
    if k + s < c {
      DivUnique(k + i, i / c, k + s, c);
    } else {
      assert (i / c + 1) * c == (i / c) * c + c;
      DivUnique(k + i, i / c + 1, k + s - c, c);
    }
  }

  lemma MulAtLeast(k: int, c: nat)
    ensures k >= 1 ==> k * c >= c
    ensures k <= -1 ==> k * c + c <= 0
  {
  }

  lemma DivUnique(x: nat, d: nat, r: nat, c: nat)
    requires 0 < c && r < c && x == d * c + r
    ensures x % c == r && x / c == d
  {
    var d', r' := x / c, x % c;
    assert x == d' * c + r';
    var k := d' - d;
    assert k * c == d' * c - d * c == r - r';
    MulAtLeast(k, c);
  }

  lemma {:induction false} CountSplit(order: seq<string>, chains: nat, i: nat, p: nat, q: nat, mid: nat, hi: nat)
    requires order != [] && p < |order| && q < |order| && mid <= hi <= chains
    ensures CountAt(order, chains, i, p, q, 0, hi)
         == CountAt(order, chains, i, p, q, 0, mid) + CountAt(order, chains, i, p, q, mid, hi)
    decreases hi - mid
  {
    if mid < hi { CountSplit(order, chains, i, p, q, mid, hi - 1); }
  }

  lemma NextQuotient(c: nat, n: nat)
    requires 0 < n
    ensures var wraps := c % n + 1 == n;
            && (c + 1) / n == c / n + (if wraps then 1 else 0)
            && (c + 1) % n == (if wraps then 0 else c % n + 1)
  {
    var d, r := c / n, c % n;
    assert c == d * n + r;
    if r + 1 == n {
      assert (d + 1) * n == d * n + n;
      DivUnique(c + 1, d + 1, 0, n);
    } else {
      DivUnique(c + 1, d, r + 1, n);
    }
  }

  /** Each stretch of n numbers has one of each residue. */
  lemma {:induction false} ResiduesExact(n: nat, x: nat, c: nat)
    requires x < n
    ensures Residues(n, x, 0, c) == c / n + if x < c % n then 1 else 0
    decreases c
  {
    if c == 0 {
      assert 0 / n == 0 && 0 % n == 0 by { DivUnique(0, 0, 0, n); }
    } else {
      ResiduesExact(n, x, c - 1);
      NextQuotient(c - 1, n);
    }
  }

  /** The design is counterbalanced: in every arm each task is at each position in
      c/n chains, rounded down or up; exactly c/n when n divides c. */
  lemma Counterbalanced(order: seq<string>, chains: nat, i: nat, p: nat, q: nat)
    requires Distinct(order) && order != [] && p < |order| && q < |order| && 0 < chains
    ensures var n := |order|;
            CountAt(order, chains, i, p, q, 0, chains) == chains / n + (if StartFor(n, p, q) < chains % n then 1 else 0)
  {
    var n, x, s := |order|, StartFor(|order|, p, q), i % chains;
    var mid := chains - s;
    CountSplit(order, chains, i, p, q, mid, chains);
    CountStraight(order, chains, i, p, q, 0, mid);
    CountWrapped(order, chains, i, p, q, mid, chains);
    ResiduesSplit(n, x, 0, s, chains);
    ResiduesExact(n, x, chains);
  }

  /** With as many chains as tasks, two arms never run the same rotation at the same chain index. */
  lemma ArmsDiffer(order: seq<string>, i: nat, i': nat, k: nat)
    requires Distinct(order) && i < i' < |order| && k < |order|
    ensures ArmOrder(order, |order|, i, k) != ArmOrder(order, |order|, i', k)
  {
    var n := |order|;
    ShiftMod(k, i, n);
    ShiftMod(k, i', n);
    DivUnique(i, 0, i, n);
    DivUnique(i', 0, i', n);
    RotationsDiffer(order, (k + i) % n, (k + i') % n);
  }

  lemma RotationsDiffer(order: seq<string>, j: nat, j': nat)
    requires Distinct(order) && j < |order| && j' < |order| && j != j'
    ensures Rotate(order, j) != Rotate(order, j')
  {
    DivUnique(j, 0, j, |order|);
    DivUnique(j', 0, j', |order|);
    RotatedTask(order, j, 0);
    RotatedTask(order, j', 0);
    assert order[j] != order[j'];
  }
}
