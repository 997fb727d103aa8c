/** Sums over the balance map. Each quantity the ledger keeps a cached copy
    of (an asset's supply, its account and sufficient counters, the
    reference counts of a holder) is the sum of a per-record weight over all
    balance records. */
module Totals {
  import opened Tokens
  import opened AssetTypes

  /** Which quantity to add up. */
  datatype Measure =
    | SupplyOf(id: AssetId)           // balances of asset `id`
    | AccountsOf(id: AssetId)         // records of asset `id`
    | SufficientsOf(id: AssetId)      // records of asset `id` holding a self-sufficient reference
    | ConsumersOf(who: AccountId)     // records of `who` holding a consumer reference
    | SelfSufficientOf(who: AccountId) // records of `who` holding a self-sufficient reference

  function Weight(m: Measure, k: Key, b: AssetBalance): nat
  {
    match m
    case SupplyOf(id) => if k.0 == id then b.balance else 0
    case AccountsOf(id) => if k.0 == id then 1 else 0
    case SufficientsOf(id) => if k.0 == id && b.sufficient then 1 else 0
    case ConsumersOf(who) => if k.1 == who && !b.sufficient then 1 else 0
    case SelfSufficientOf(who) => if k.1 == who && b.sufficient then 1 else 0
  }

  /** The weight a possibly absent key contributes. */
  function WeightAt(acc: map<Key, AssetBalance>, m: Measure, k: Key): nat
  {
    if k in acc then Weight(m, k, acc[k]) else 0
  }

  ghost function Total(acc: map<Key, AssetBalance>, m: Measure): nat
    decreases |acc|
  {
    if acc == map[] then 0
    else
      var k :| k in acc;
      Weight(m, k, acc[k]) + Total(acc - {k}, m)
  }

  /** Taking any one record out of the sum. */
  lemma {:induction false} TotalRemove(acc: map<Key, AssetBalance>, m: Measure, k: Key)
    requires k in acc
    ensures Total(acc, m) == Weight(m, k, acc[k]) + Total(acc - {k}, m)
    decreases |acc|
  {
    var j :| j in acc && Total(acc, m) == Weight(m, j, acc[j]) + Total(acc - {j}, m);
    if j != k {
      var rest := acc - {j};
      assert k in rest && rest[k] == acc[k];
      TotalRemove(rest, m, k);
      var other := acc - {k};
      assert j in other && other[j] == acc[j];
      TotalRemove(other, m, j);
      assert rest - {k} == other - {j};
    }
  }

  /** Writing one record changes the sum by the difference of its weights. */
  lemma TotalUpdate(acc: map<Key, AssetBalance>, m: Measure, k: Key, v: AssetBalance)
    ensures Total(acc[k := v], m) + WeightAt(acc, m, k) == Total(acc, m) + Weight(m, k, v)
  {
    var acc' := acc[k := v];
    TotalRemove(acc', m, k);
    assert acc' - {k} == acc - {k};
    if k in acc {
      TotalRemove(acc, m, k);
    } else {
      assert acc - {k} == acc;
    }
  }

  /** Deleting one record subtracts its weight. */
  lemma TotalDelete(acc: map<Key, AssetBalance>, m: Measure, k: Key)
    ensures Total(acc - {k}, m) + WeightAt(acc, m, k) == Total(acc, m)
  {
    if k in acc {
      TotalRemove(acc, m, k);
    } else {
      assert acc - {k} == acc;
    }
  }

  /** The same two facts for every measure at once. */
  lemma UpdateAll(acc: map<Key, AssetBalance>, k: Key, v: AssetBalance)
    ensures forall m :: Total(acc[k := v], m) + WeightAt(acc, m, k) == Total(acc, m) + Weight(m, k, v)
  {
    forall m ensures Total(acc[k := v], m) + WeightAt(acc, m, k) == Total(acc, m) + Weight(m, k, v) {
      TotalUpdate(acc, m, k, v);
    }
  }

  lemma DeleteAll(acc: map<Key, AssetBalance>, k: Key)
    ensures forall m :: Total(acc - {k}, m) + WeightAt(acc, m, k) == Total(acc, m)
  {
    forall m ensures Total(acc - {k}, m) + WeightAt(acc, m, k) == Total(acc, m) {
      TotalDelete(acc, m, k);
    }
  }

  /** A single record never weighs more than the sum. */
  lemma WeightBelowTotal(acc: map<Key, AssetBalance>, m: Measure, k: Key)
    ensures WeightAt(acc, m, k) <= Total(acc, m)
  {
    TotalDelete(acc, m, k);
  }

  /** A sum is zero when no record carries weight. */
  lemma {:induction false} TotalZero(acc: map<Key, AssetBalance>, m: Measure)
    requires forall k :: k in acc ==> Weight(m, k, acc[k]) == 0
    ensures Total(acc, m) == 0
    decreases |acc|
  {
    if acc != map[] {
      var k :| k in acc;
      TotalRemove(acc, m, k);
      TotalZero(acc - {k}, m);
    }
  }

  /** The records of every asset but `id`. */
  function Without(acc: map<Key, AssetBalance>, id: AssetId): map<Key, AssetBalance>
  {
    map k | k in acc && k.0 != id :: acc[k]
  }

  /** The records of asset `id`. */
  function Only(acc: map<Key, AssetBalance>, id: AssetId): map<Key, AssetBalance>
  {
    map k | k in acc && k.0 == id :: acc[k]
  }

  lemma SplitRemove(acc: map<Key, AssetBalance>, id: AssetId, k: Key)
    requires k in acc
    ensures k.0 == id ==> Without(acc - {k}, id) == Without(acc, id) && Only(acc - {k}, id) == Only(acc, id) - {k}
    ensures k.0 != id ==> Only(acc - {k}, id) == Only(acc, id) && Without(acc - {k}, id) == Without(acc, id) - {k}
  {
  }

  /** A sum splits into the records of asset `id` and the rest. */
  lemma {:induction false} TotalSplit(acc: map<Key, AssetBalance>, id: AssetId, m: Measure)
    ensures Total(acc, m) == Total(Without(acc, id), m) + Total(Only(acc, id), m)
    decreases |acc|
  {
    if acc == map[] {
      assert Without(acc, id) == map[] && Only(acc, id) == map[];
    } else {
      var k :| k in acc;
      var rest := acc - {k};
      TotalRemove(acc, m, k);
      TotalSplit(rest, id, m);
      SplitRemove(acc, id, k);
      if k.0 == id {
        TotalRemove(Only(acc, id), m, k);
      } else {
        TotalRemove(Without(acc, id), m, k);
      }
    }
  }

  /** Measures of another asset give no weight to the records of `id`. */
  predicate Elsewhere(m: Measure, id: AssetId)
  {
    match m
    case SupplyOf(other) => other != id
    case AccountsOf(other) => other != id
    case SufficientsOf(other) => other != id
    case _ => false
  }

  /** Taking the records of asset `id` away leaves every other asset's sums
      as they were, and lowers a holder's sums by the weight of its one
      record of `id`. */
  lemma TotalWithout(acc: map<Key, AssetBalance>, id: AssetId, m: Measure)
    ensures Elsewhere(m, id) ==> Total(Without(acc, id), m) == Total(acc, m)
    ensures m.ConsumersOf? ==> Total(Without(acc, id), m) + WeightAt(acc, m, (id, m.who)) == Total(acc, m)
    ensures m.SelfSufficientOf? ==> Total(Without(acc, id), m) + WeightAt(acc, m, (id, m.who)) == Total(acc, m)
  {
    TotalSplit(acc, id, m);
    var only := Only(acc, id);
    if Elsewhere(m, id) {
      TotalZero(only, m);
    } else if m.ConsumersOf? || m.SelfSufficientOf? {
      var k := (id, m.who);
      TotalDelete(only, m, k);
      TotalZero(only - {k}, m);
      assert WeightAt(only, m, k) == WeightAt(acc, m, k);
    }
  }
}
