/**
 * The resource ledger `state.resources` that purchases (js/game.js) and
 * research (js/tech.js) both debit: a map from material id to amount, and
 * the loop that subtracts every entry of a cost from it.
 */
module Ledger {
  import opened Catalog

  type Resources = map<MaterialId, real>

  /** Every catalog material has an entry (the constructor creates them all). */
  predicate Ledgered(r: Resources)
  {
    MaterialIds <= r.Keys
  }

  /** No amount is negative. */
  predicate Solvent(r: Resources)
  {
    forall m :: m in r ==> r[m] >= 0.0
  }

  /** Every entry of the cost names a material the ledger holds, so subtracting it is defined. */
  predicate Payable(r: Resources, c: Cost)
  {
    forall i :: 0 <= i < |c| ==> c[i].0 in r
  }

  /** The ledger holds at least the amount of every cost entry. */
  predicate Covers(r: Resources, c: Cost)
    requires Payable(r, c)
  {
    forall i :: 0 <= i < |c| ==> r[c[i].0] >= c[i].1
  }

  /** The total that `c` charges for material `m`. */
  function AmountOf(c: Cost, m: MaterialId): real
  {
    if c == [] then 0.0 else AmountOf(c[..|c| - 1], m) + (if c[|c| - 1].0 == m then c[|c| - 1].1 else 0.0)
  }

  /** The debit loop: every entry of `c`, in order, subtracted from its material. */
  function Debit(r: Resources, c: Cost): (d: Resources)
    requires Payable(r, c)
    ensures d.Keys == r.Keys
  {
    if c == [] then r
    else
      var d := Debit(r, c[..|c| - 1]);
      d[c[|c| - 1].0 := d[c[|c| - 1].0] - c[|c| - 1].1]
  }

  /** A debit lowers each material by exactly what the cost charges for it. */
  lemma {:induction false} DebitEffect(r: Resources, c: Cost)
    requires Payable(r, c)
    ensures forall m :: m in r ==> Debit(r, c)[m] == r[m] - AmountOf(c, m)
  {
    if c != [] {
      DebitEffect(r, c[..|c| - 1]);
    }
  }

  /** With distinct keys, a cost charges a listed material exactly its one amount. */
  lemma {:induction false} AmountOfListed(c: Cost, i: int)
    requires DistinctKeys(c) && 0 <= i < |c|
    ensures AmountOf(c, c[i].0) == c[i].1
  {
    var n := |c| - 1;
    if i < n {
      AmountOfListed(c[..n], i);
    } else {
      AmountOfUnlisted(c[..n], c[i].0);
    }
  }

  /** A cost charges nothing for a material it does not list. */
  lemma {:induction false} AmountOfUnlisted(c: Cost, m: MaterialId)
    requires forall i :: 0 <= i < |c| ==> c[i].0 != m
    ensures AmountOf(c, m) == 0.0
  {
    if c != [] {
      AmountOfUnlisted(c[..|c| - 1], m);
    }
  }

  /**
   * A debit of a cost with distinct keys takes exactly each entry's amount
   * from its material and leaves every other material unchanged.
   */
  lemma DebitExact(r: Resources, c: Cost)
    requires Payable(r, c) && DistinctKeys(c)
    ensures forall i :: 0 <= i < |c| ==> Debit(r, c)[c[i].0] == r[c[i].0] - c[i].1
    ensures forall m :: m in r && (forall i :: 0 <= i < |c| ==> c[i].0 != m) ==> Debit(r, c)[m] == r[m]
  {
    DebitEffect(r, c);
    forall i | 0 <= i < |c|
      ensures Debit(r, c)[c[i].0] == r[c[i].0] - c[i].1
    {
      AmountOfListed(c, i);
    }
    forall m | m in r && (forall i :: 0 <= i < |c| ==> c[i].0 != m)
      ensures Debit(r, c)[m] == r[m]
    {
      AmountOfUnlisted(c, m);
    }
  }

  /** A covered debit of a cost with distinct keys leaves a solvent ledger solvent. */
  lemma DebitSolvent(r: Resources, c: Cost)
    requires Payable(r, c) && DistinctKeys(c) && Covers(r, c) && Solvent(r)
    ensures Solvent(Debit(r, c))
  {
    DebitExact(r, c);
    forall m | m in Debit(r, c)
      ensures Debit(r, c)[m] >= 0.0
    {
      if i :| 0 <= i < |c| && c[i].0 == m {
        assert Debit(r, c)[m] == r[m] - c[i].1;
      }
    }
  }
}
