/** The global invariant of the ledger and the generic fact that one
    consistent record change keeps it. The invariant says:
    - every asset has a positive minimum;
    - each cached counter of an asset (supply, accounts, sufficients) is the
      corresponding sum over its balance records;
    - every balance record belongs to an existing asset and holds at least
      that asset's minimum (no dust is stored);
    - the references placed on each holder are those its records carry. */
module Invariants {
  import opened Tokens
  import opened AssetTypes
  import opened Totals

  ghost predicate AssetValid(s: State, id: AssetId)
    requires id in s.asset
  {
    var d := s.asset[id];
    && d.minBalance > 0
    && d.supply == Total(s.account, SupplyOf(id))
    && d.accounts == Total(s.account, AccountsOf(id))
    && d.sufficients == Total(s.account, SufficientsOf(id))
  }

  predicate RecordValid(s: State, k: Key)
    requires k in s.account
  {
    k.0 in s.asset && s.account[k].balance >= s.asset[k.0].minBalance
  }

  ghost predicate RefsValid(s: State, who: AccountId)
  {
    && Count(s.refs.consumers, who) == Total(s.account, ConsumersOf(who))
    && Count(s.refs.sufficients, who) == Total(s.account, SelfSufficientOf(who))
  }

  ghost predicate Valid(s: State)
  {
    && (forall id {:trigger AssetValid(s, id)} :: id in s.asset ==> AssetValid(s, id))
    && (forall k {:trigger RecordValid(s, k)} :: k in s.account ==> RecordValid(s, k))
    && (forall who :: RefsValid(s, who))
  }

  /** The empty ledger. */
  lemma EmptyValid(refs: Refs)
    requires forall who :: Count(refs.consumers, who) == 0 && Count(refs.sufficients, who) == 0
    ensures Valid(State(map[], map[], map[], refs))
  {
  }

  /** Under the invariant a holder has a record exactly when its balance is
      non-zero, and no record holds more than the supply. */
  lemma RecordIffBalance(s: State, id: AssetId, who: AccountId)
    requires Valid(s)
    ensures (id, who) in s.account <==> BalanceOf(s, id, who) > 0
    ensures id in s.asset ==> BalanceOf(s, id, who) <= s.asset[id].supply && s.asset[id].minBalance > 0
    ensures (id, who) in s.account ==> id in s.asset && BalanceOf(s, id, who) >= s.asset[id].minBalance
  {
    if (id, who) in s.account {
      assert RecordValid(s, (id, who));
    }
    if id in s.asset {
      assert AssetValid(s, id);
      WeightBelowTotal(s.account, SupplyOf(id), (id, who));
    }
  }

  function Ind(b: bool): nat
  {
    if b then 1 else 0
  }

  /** A record that may be absent. */
  function Lookup(acc: map<Key, AssetBalance>, k: Key): Option<AssetBalance>
  {
    if k in acc then Some(acc[k]) else None
  }

  /** Writing a possibly absent record. */
  function Put(acc: map<Key, AssetBalance>, k: Key, r: Option<AssetBalance>): map<Key, AssetBalance>
  {
    if r.Some? then acc[k := r.value] else acc - {k}
  }

  function BalanceIn(r: Option<AssetBalance>): nat
  {
    if r.Some? then r.value.balance else 0
  }

  function CarriesConsumer(r: Option<AssetBalance>): bool
  {
    r.Some? && !r.value.sufficient
  }

  function CarriesSufficient(r: Option<AssetBalance>): bool
  {
    r.Some? && r.value.sufficient
  }

  /** The asset record `d'` accounts for replacing record `before` by `after`. */
  predicate CountersFollow(d: AssetDetails, d': AssetDetails, before: Option<AssetBalance>, after: Option<AssetBalance>)
  {
    && d'.minBalance == d.minBalance
    && d'.supply + BalanceIn(before) == d.supply + BalanceIn(after)
    && d'.accounts + Ind(before.Some?) == d.accounts + Ind(after.Some?)
    && d'.sufficients + Ind(CarriesSufficient(before)) == d.sufficients + Ind(CarriesSufficient(after))
  }

  /** The references `refs'` account for replacing `who`'s record `before` by `after`. */
  ghost predicate RefsFollow(refs: Refs, refs': Refs, who: AccountId, before: Option<AssetBalance>, after: Option<AssetBalance>)
  {
    && (forall w :: w != who ==> Count(refs'.consumers, w) == Count(refs.consumers, w))
    && (forall w :: w != who ==> Count(refs'.sufficients, w) == Count(refs.sufficients, w))
    && Count(refs'.consumers, who) + Ind(CarriesConsumer(before)) == Count(refs.consumers, who) + Ind(CarriesConsumer(after))
    && Count(refs'.sufficients, who) + Ind(CarriesSufficient(before)) == Count(refs.sufficients, who) + Ind(CarriesSufficient(after))
  }

  function WeightOf(m: Measure, k: Key, r: Option<AssetBalance>): nat
  {
    if r.Some? then Weight(m, k, r.value) else 0
  }

  /** A sum moves by the change of one record's weight. */
  lemma PutTotal(acc: map<Key, AssetBalance>, k: Key, after: Option<AssetBalance>, m: Measure)
    ensures Total(Put(acc, k, after), m) + WeightOf(m, k, Lookup(acc, k)) == Total(acc, m) + WeightOf(m, k, after)
  {
    if after.Some? {
      TotalUpdate(acc, m, k, after.value);
    } else {
      TotalDelete(acc, m, k);
    }
  }

  /** The preconditions of `ChangeRecord`. */
  ghost predicate ConsistentChange(s: State, s': State, k: Key, after: Option<AssetBalance>)
  {
    && k.0 in s.asset
    && s'.account == Put(s.account, k, after)
    && s'.asset.Keys == s.asset.Keys
    && (forall id :: id in s.asset && id != k.0 ==> s'.asset[id] == s.asset[id])
    && CountersFollow(s.asset[k.0], s'.asset[k.0], Lookup(s.account, k), after)
    && RefsFollow(s.refs, s'.refs, k.1, Lookup(s.account, k), after)
    && (after.Some? ==> after.value.balance >= s.asset[k.0].minBalance)
  }

  lemma ChangeKeepsAsset(s: State, s': State, k: Key, after: Option<AssetBalance>, id: AssetId)
    requires ConsistentChange(s, s', k, after)
    requires id in s.asset && AssetValid(s, id)
    ensures AssetValid(s', id)
  {
    PutTotal(s.account, k, after, SupplyOf(id));
    PutTotal(s.account, k, after, AccountsOf(id));
    PutTotal(s.account, k, after, SufficientsOf(id));
  }

  lemma ChangeKeepsRefs(s: State, s': State, k: Key, after: Option<AssetBalance>, who: AccountId)
    requires ConsistentChange(s, s', k, after)
    requires RefsValid(s, who)
    ensures RefsValid(s', who)
  {
    PutTotal(s.account, k, after, ConsumersOf(who));
    PutTotal(s.account, k, after, SelfSufficientOf(who));
  }

  /** The one fact every operation rests on: replacing one balance record
      while adjusting its asset's counters and its holder's references
      accordingly keeps the invariant, provided the new record holds at
      least the minimum and no other asset record changes. */
  lemma ChangeRecord(s: State, s': State, k: Key, after: Option<AssetBalance>)
    requires Valid(s)
    requires ConsistentChange(s, s', k, after)
    ensures Valid(s')
  {
    forall id | id in s'.asset
      ensures AssetValid(s', id)
    {
      ChangeKeepsAsset(s, s', k, after, id);
    }
    forall k' | k' in s'.account
      ensures RecordValid(s', k')
    {
      if k' != k {
        assert k' in s.account && RecordValid(s, k');
      }
    }
    forall who
      ensures RefsValid(s', who)
    {
      ChangeKeepsRefs(s, s', k, after, who);
    }
  }

  /** Changing only the approvals keeps the invariant. */
  lemma ApprovalsIrrelevant(s: State, approvals: map<(AssetId, ApprovalKey), Approval>)
    requires Valid(s)
    ensures Valid(s.(approvals := approvals))
  {
    var s' := s.(approvals := approvals);
    assert forall id :: id in s'.asset ==> AssetValid(s, id) ==> AssetValid(s', id);
    assert forall k :: k in s'.account ==> RecordValid(s, k) ==> RecordValid(s', k);
    assert forall who :: RefsValid(s, who) ==> RefsValid(s', who);
  }
}
