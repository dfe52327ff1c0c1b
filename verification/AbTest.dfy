/** Hash-based assignment of users to the variants of an A/B test. */
module AbTest {

  /** The variants in dictionary order with their weights in percent. */
  type Variants = seq<(string, nat)>

  const RESIDUES := 100

  /** The running total of the first n weights. */
  function Total(variants: Variants, n: nat): nat
    requires n <= |variants|
  {
    if n == 0 then 0 else Total(variants, n - 1) + variants[n - 1].1
  }

  function Capped(variants: Variants, n: nat): nat
    requires n <= |variants|
  {
    if Total(variants, n) < 100 then Total(variants, n) else 100
  }

  lemma {:induction false} TotalsGrow(variants: Variants, m: nat, n: nat)
    requires m <= n <= |variants|
    ensures Total(variants, m) <= Total(variants, n)
  {
    if m < n { TotalsGrow(variants, m, n - 1); }
  }

  /** The first variant whose running total exceeds the residue; |variants| when there is none. */
  function Chosen(variants: Variants, residue: nat): (i: nat)
    ensures i <= |variants|
    ensures i < |variants| ==> residue < Total(variants, i + 1)
    ensures forall j | 1 <= j <= i :: Total(variants, j) <= residue
  {
    ChosenFrom(variants, residue, 0)
  }

  function ChosenFrom(variants: Variants, residue: nat, i: nat): (r: nat)
    requires i <= |variants| && forall j | 1 <= j <= i :: Total(variants, j) <= residue
    ensures i <= r <= |variants|
    ensures r < |variants| ==> residue < Total(variants, r + 1)
    ensures forall j | 1 <= j <= r :: Total(variants, j) <= residue
    decreases |variants| - i
  {
    if i == |variants| || residue < Total(variants, i + 1) then i else ChosenFrom(variants, residue, i + 1)
  }

  function NameAt(variants: Variants, i: nat): string {
    if i < |variants| then variants[i].0 else "control"
  }

  /** assign_variant for a user whose hash is `hash`. */
  method AssignVariant(variants: Variants, hash: nat) returns (name: string)
    ensures name == NameAt(variants, Chosen(variants, hash % 100))
  {
    if variants == [] {
      return "control";
    }
    var residue := hash % RESIDUES;
    var cumulative := 0;
    for i := 0 to |variants|
      invariant cumulative == Total(variants, i)
      invariant forall j | 1 <= j <= i :: Total(variants, j) <= residue
    {
      cumulative := cumulative + variants[i].1;
      if residue < cumulative {
        ChosenUnique(variants, residue, i);
        return variants[i].0;
      }
    }
    return "control";
  }

  lemma ChosenUnique(variants: Variants, residue: nat, i: nat)
    requires i < |variants| && residue < Total(variants, i + 1)
    requires forall j | 1 <= j <= i :: Total(variants, j) <= residue
    ensures Chosen(variants, residue) == i
  {
  }

  // ---- how many residues go where ----

  /** The residues that select the i-th variant, or for i = |variants| fall through all of them. */
  function Selecting(variants: Variants, i: nat): set<int> {
    set r: int | 0 <= r < 100 && Chosen(variants, r) == i
  }

  predicate Between(lo: nat, r: int, hi: nat) { lo <= r < hi }

  function Interval(lo: nat, hi: nat): set<int> { set r: int | lo <= r < hi && Between(lo, r, hi) }

  lemma {:induction false} IntervalSize(lo: nat, hi: nat)
    requires lo <= hi
    ensures |Interval(lo, hi)| == hi - lo
    decreases hi - lo
  {
    if lo < hi {
      IntervalSize(lo + 1, hi);
      assert Interval(lo, hi) == Interval(lo + 1, hi) + {lo};
    } else {
      assert Interval(lo, hi) == {};
    }
  }

  /** Totals never shrink, so the i-th variant is chosen between its neighbours' totals. */
  lemma ChosenIff(variants: Variants, r: nat, i: nat)
    requires i <= |variants| && r < 100
    ensures Chosen(variants, r) == i
       <==> Total(variants, i) <= r && (i < |variants| ==> r < Total(variants, i + 1))
  {
    var c := Chosen(variants, r);
    if c < i { TotalsGrow(variants, c + 1, i); }
    if i < c { assert Total(variants, i + 1) <= r; }
  }

  /**
   Main result: with running totals C, exactly min(100, C_i+1) - min(100, C_i) of the hundred
   residues select the i-th variant, and the remaining ones select none.
   */
  lemma ExactShares(variants: Variants, i: nat)
    requires i <= |variants|
    ensures |Selecting(variants, i)|
         == (if i < |variants| then Capped(variants, i + 1) else 100) - Capped(variants, i)
  {
    var lo := Capped(variants, i);
    var hi := if i < |variants| then Capped(variants, i + 1) else 100;
    if i < |variants| { TotalsGrow(variants, i, i + 1); }
    forall r: int | 0 <= r < 100
      ensures Chosen(variants, r) == i <==> lo <= r < hi
    {
      ChosenIff(variants, r, i);
    }
    assert Selecting(variants, i) == Interval(lo, hi);
    IntervalSize(lo, hi);
  }

  /** Residues by the name returned: the fall-through adds to a variant called control. */
  function Named(variants: Variants, name: string): set<int> {
    set r: int | 0 <= r < 100 && NameAt(variants, Chosen(variants, r)) == name
  }

  /** A variant not called control is returned for exactly its own share of the residues. */
  lemma ShareOfVariant(variants: Variants, i: nat)
    requires forall j, k | 0 <= j < k < |variants| :: variants[j].0 != variants[k].0
    requires i < |variants| && variants[i].0 != "control"
    ensures |Named(variants, variants[i].0)| == Capped(variants, i + 1) - Capped(variants, i)
  {
    ExactShares(variants, i);
    assert Named(variants, variants[i].0) == Selecting(variants, i);
  }

  /** A variant called control gets its share and every residue that no variant selects. */
  lemma ShareOfControl(variants: Variants, i: nat)
    requires forall j, k | 0 <= j < k < |variants| :: variants[j].0 != variants[k].0
    requires i < |variants| && variants[i].0 == "control"
    ensures |Named(variants, "control")|
         == Capped(variants, i + 1) - Capped(variants, i) + 100 - Capped(variants, |variants|)
  {
    ExactShares(variants, i);
    ExactShares(variants, |variants|);
    ControlOrNone(variants, i);
  }

  lemma ControlOrNone(variants: Variants, i: nat)
    requires forall j, k | 0 <= j < k < |variants| :: variants[j].0 != variants[k].0
    requires i < |variants| && variants[i].0 == "control"
    ensures Named(variants, "control") == Selecting(variants, i) + Selecting(variants, |variants|)
    ensures Selecting(variants, i) !! Selecting(variants, |variants|)
  {
  }

  lemma ControlGetsTheRest(variants: Variants)
    requires forall j | 0 <= j < |variants| :: variants[j].0 != "control"
    ensures |Named(variants, "control")| == 100 - Capped(variants, |variants|)
  {
    ExactShares(variants, |variants|);
    assert Named(variants, "control") == Selecting(variants, |variants|);
  }
}
