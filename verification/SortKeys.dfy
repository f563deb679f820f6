/** Sparse sort keys: the updates an order needs, their one-by-one application, and order by size group. */
module SortKeys {
  import opened Text
  import opened Sequences
  import opened AccountOrder

  const ACCOUNT_SORT_STEP := 5

  datatype SortUpdate = SortUpdate(accountId: string, sort: int)

  /** The key an account shows; a priority that is not a finite number is no priority. */
  function CurrentSort(account: Account): int {
    if account.priority.Some? then account.priority.value else account.sort
  }

  function UpdatesFrom(accounts: seq<Account>, index: nat): seq<SortUpdate> {
    if accounts == [] then []
    else
      var nextSort := index * ACCOUNT_SORT_STEP;
      (if CurrentSort(accounts[0]) != nextSort then [SortUpdate(accounts[0].id, nextSort)] else [])
      + UpdatesFrom(accounts[1..], index + 1)
  }

  function OrderUpdates(orderedAccounts: seq<Account>): seq<SortUpdate> {
    UpdatesFrom(orderedAccounts, 0)
  }

  lemma {:induction false} UpdatesSnoc(accounts: seq<Account>, index: nat, account: Account)
    ensures var nextSort := (index + |accounts|) * ACCOUNT_SORT_STEP;
            UpdatesFrom(accounts + [account], index) == UpdatesFrom(accounts, index)
              + if CurrentSort(account) != nextSort then [SortUpdate(account.id, nextSort)] else []
  {
    hide CurrentSort;
    if accounts == [] {
      assert [account][1..] == [];
      assert accounts + [account] == [account];
    } else {
      assert (accounts + [account])[1..] == accounts[1..] + [account];
      UpdatesSnoc(accounts[1..], index + 1, account);
    }
  }

  method BuildAccountOrderUpdates(orderedAccounts: seq<Account>) returns (updates: seq<SortUpdate>)
    ensures updates == OrderUpdates(orderedAccounts)
  {
    updates := [];
    for index := 0 to |orderedAccounts|
      invariant updates == OrderUpdates(orderedAccounts[..index])
    {
      assert orderedAccounts[..index + 1] == orderedAccounts[..index] + [orderedAccounts[index]];
      UpdatesSnoc(orderedAccounts[..index], 0, orderedAccounts[index]);
      var nextSort := index * ACCOUNT_SORT_STEP;
      if CurrentSort(orderedAccounts[index]) != nextSort {
        updates := updates + [SortUpdate(orderedAccounts[index].id, nextSort)];
      }
    }
    assert orderedAccounts[..|orderedAccounts|] == orderedAccounts;
  }

  // -------------------------------------------------------- the server's keys

  type Keys = map<string, int>

  /** The server updates a row it has, and no other. */
  function Applied(keys: Keys, update: SortUpdate): Keys {
    if update.accountId in keys then keys[update.accountId := update.sort] else keys
  }

  function ApplyAll(keys: Keys, updates: seq<SortUpdate>): (r: Keys)
    ensures r.Keys == keys.Keys
  {
    if updates == [] then keys else ApplyAll(Applied(keys, updates[0]), updates[1..])
  }

  lemma {:induction false} ApplySnoc(keys: Keys, updates: seq<SortUpdate>, update: SortUpdate)
    ensures ApplyAll(keys, updates + [update]) == Applied(ApplyAll(keys, updates), update)
    decreases |updates|
  {
    hide Applied;
    if updates == [] {
      assert [update][1..] == [];
      assert updates + [update] == [update];
    } else {
      assert (updates + [update])[1..] == updates[1..] + [update];
      ApplySnoc(Applied(keys, updates[0]), updates[1..], update);
    }
  }

  class AccountService {
    var keys: Keys

    constructor (keys: Keys)
      ensures this.keys == keys
    {
      this.keys := keys;
    }

    /** Sends the updates one at a time and stops at the first request that fails. */
    method ReorderAccounts(updates: seq<SortUpdate>, fails: nat -> bool) returns (ok: bool, applied: nat)
      modifies this
      ensures applied <= |updates| && keys == ApplyAll(old(keys), updates[..applied])
      ensures ok <==> applied == |updates|
      ensures !ok ==> fails(applied)
      ensures forall k :: 0 <= k < applied ==> !fails(k)
    {
      applied := 0;
      while applied < |updates|
        invariant applied <= |updates| && keys == ApplyAll(old(keys), updates[..applied])
        invariant forall k :: 0 <= k < applied ==> !fails(k)
      {
        if fails(applied) {
          return false, applied;
        }
        var update := updates[applied];
        ApplySnoc(old(keys), updates[..applied], update);
        assert updates[..applied + 1] == updates[..applied] + [update];
        if update.accountId in keys {
          keys := keys[update.accountId := update.sort];
        }
        applied := applied + 1;
      }
      ok := true;
    }
  }

  /** The client shows a stored key, but never a negative one. */
  function Shown(key: int): int {
    if key < 0 then 0 else key
  }

  /** The accounts in memory carry the keys the server has. */
  ghost predicate Fresh(accounts: seq<Account>, keys: Keys) {
    forall k :: 0 <= k < |accounts| ==>
      accounts[k].id in keys && CurrentSort(accounts[k]) == Shown(keys[accounts[k].id])
  }

  function Refetched(account: Account, keys: Keys): Account {
    if account.id in keys then account.(priority := Some(Shown(keys[account.id])), sort := Shown(keys[account.id]))
    else account
  }

  function Refresh(accounts: seq<Account>, keys: Keys): (r: seq<Account>)
    ensures |r| == |accounts| && forall k :: 0 <= k < |r| ==> r[k] == Refetched(accounts[k], keys)
  {
    seq(|accounts|, k requires 0 <= k < |accounts| => Refetched(accounts[k], keys))
  }

  lemma {:induction false} UpdatesIds(accounts: seq<Account>, index: nat)
    ensures forall u :: u in UpdatesFrom(accounts, index) ==>
              exists k :: 0 <= k < |accounts| && accounts[k].id == u.accountId
  {
    if accounts != [] {
      UpdatesIds(accounts[1..], index + 1);
      forall u | u in UpdatesFrom(accounts, index)
        ensures exists k :: 0 <= k < |accounts| && accounts[k].id == u.accountId
      {
        if u in UpdatesFrom(accounts[1..], index + 1) {
          var k :| 0 <= k < |accounts[1..]| && accounts[1..][k].id == u.accountId;
          assert accounts[k + 1].id == u.accountId;
        } else {
          assert accounts[0].id == u.accountId;
        }
      }
    }
  }

  lemma {:induction false} ApplyOthers(keys: Keys, updates: seq<SortUpdate>, id: string)
    requires id in keys && forall u :: u in updates ==> u.accountId != id
    ensures ApplyAll(keys, updates)[id] == keys[id]
  {
    if updates != [] {
      assert updates[0] in updates;
      ApplyOthers(Applied(keys, updates[0]), updates[1..], id);
    }
  }

  lemma TailIds(accounts: seq<Account>, index: nat, p: nat)
    requires accounts != [] && UniqueIds(accounts) && p <= |UpdatesFrom(accounts[1..], index)|
    ensures forall u :: u in UpdatesFrom(accounts[1..], index)[..p] ==> u.accountId != accounts[0].id
  {
    UpdatesIds(accounts[1..], index);
    forall u | u in UpdatesFrom(accounts[1..], index)[..p] ensures u.accountId != accounts[0].id {
      assert u in UpdatesFrom(accounts[1..], index);
      var k :| 0 <= k < |accounts[1..]| && accounts[1..][k].id == u.accountId;
      assert accounts[k + 1].id == u.accountId;
    }
  }

  lemma UpdatesCons(account: Account, rest: seq<Account>, index: nat)
    ensures UpdatesFrom([account] + rest, index) ==
              (if CurrentSort(account) != index * ACCOUNT_SORT_STEP
               then [SortUpdate(account.id, index * ACCOUNT_SORT_STEP)] else [])
              + UpdatesFrom(rest, index + 1)
  {
    assert ([account] + rest)[1..] == rest;
  }

  lemma ResumeSent(account: Account, rest: seq<Account>, index: nat, keys: Keys, p: nat)
    requires UniqueIds([account] + rest) && Fresh([account] + rest, keys)
    requires CurrentSort(account) != index * ACCOUNT_SORT_STEP && p < |UpdatesFrom(rest, index + 1)| + 1
    ensures var first := SortUpdate(account.id, index * ACCOUNT_SORT_STEP);
            var tail := UpdatesFrom(rest, index + 1);
            var now := ApplyAll(Applied(keys, first), tail[..p]);
            && UpdatesFrom([account] + rest, index) == [first] + tail
            && ApplyAll(keys, [first] + tail[..p]) == now
            && Fresh(rest, Applied(keys, first))
            && UpdatesFrom(Refresh([account] + rest, now), index) == UpdatesFrom(Refresh(rest, now), index + 1)
  {
    hide UniqueIds, Fresh, ApplyAll, CurrentSort, Refresh;
    var first := SortUpdate(account.id, index * ACCOUNT_SORT_STEP);
    var tail := UpdatesFrom(rest, index + 1);
    assert ([account] + rest)[1..] == rest;
    UniqueTail([account] + rest);
    UpdatesCons(account, rest, index);
    TailIds([account] + rest, index + 1, p);
    FreshTail([account] + rest, keys, keys);
    FreshTail([account] + rest, keys, Applied(keys, first));
    ApplyCons(keys, first, tail[..p]);
    ApplyOthers(Applied(keys, first), tail[..p], account.id);
    ResumeHead(account, rest, ApplyAll(Applied(keys, first), tail[..p]), index);
  }

  lemma ResumeUnsent(account: Account, rest: seq<Account>, index: nat, keys: Keys, p: nat)
    requires UniqueIds([account] + rest) && Fresh([account] + rest, keys)
    requires p <= |UpdatesFrom(rest, index + 1)|
    ensures var tail := UpdatesFrom(rest, index + 1);
            var now := ApplyAll(keys, tail[..p]);
            && Fresh(rest, keys)
            && UpdatesFrom(Refresh([account] + rest, now), index) ==
                 (if CurrentSort(account) != index * ACCOUNT_SORT_STEP
                  then [SortUpdate(account.id, index * ACCOUNT_SORT_STEP)] else [])
                 + UpdatesFrom(Refresh(rest, now), index + 1)
  {
    hide UniqueIds, Fresh, ApplyAll, CurrentSort, Refresh;
    var tail := UpdatesFrom(rest, index + 1);
    assert ([account] + rest)[1..] == rest;
    UniqueTail([account] + rest);
    TailIds([account] + rest, index + 1, p);
    FreshTail([account] + rest, keys, keys);
    ApplyOthers(keys, tail[..p], account.id);
    ResumeHead(account, rest, ApplyAll(keys, tail[..p]), index);
  }

  lemma FreshKnown(accounts: seq<Account>, keys: Keys)
    requires Fresh(accounts, keys)
    ensures forall k :: 0 <= k < |accounts| ==> accounts[k].id in keys
  {
  }

  lemma {:induction false} Resume(accounts: seq<Account>, index: nat, keys: Keys, p: nat)
    requires UniqueIds(accounts) && Fresh(accounts, keys)
    requires p <= |UpdatesFrom(accounts, index)|
    ensures UpdatesFrom(Refresh(accounts, ApplyAll(keys, UpdatesFrom(accounts, index)[..p])), index)
         == UpdatesFrom(accounts, index)[p..]
  {
    hide UniqueIds, Fresh, ApplyAll, CurrentSort, Refresh;
    FreshKnown(accounts, keys);
    if accounts != [] {
      var account, rest := accounts[0], accounts[1..];
      var updates, tail := UpdatesFrom(accounts, index), UpdatesFrom(rest, index + 1);
      assert accounts == [account] + rest;
      UniqueTail(accounts);
      UpdatesCons(account, rest, index);
      if CurrentSort(account) != index * ACCOUNT_SORT_STEP && p > 0 {
        var first := SortUpdate(account.id, index * ACCOUNT_SORT_STEP);
        ResumeSent(account, rest, index, keys, p - 1);
        Resume(rest, index + 1, Applied(keys, first), p - 1);
        assert updates[..p] == [first] + tail[..p - 1];
      } else {
        var q := if CurrentSort(account) != index * ACCOUNT_SORT_STEP then 0 else p;
        ResumeUnsent(account, rest, index, keys, q);
        Resume(rest, index + 1, keys, q);
        assert updates[..p] == tail[..q];
      }
    }
  }

  lemma ApplyCons(keys: Keys, first: SortUpdate, rest: seq<SortUpdate>)
    ensures ApplyAll(keys, [first] + rest) == ApplyAll(Applied(keys, first), rest)
  {
    assert ([first] + rest)[1..] == rest;
  }

  lemma UniqueTail(accounts: seq<Account>)
    requires UniqueIds(accounts) && accounts != []
    ensures UniqueIds(accounts[1..])
    ensures forall k :: 0 <= k < |accounts[1..]| ==> accounts[1..][k].id != accounts[0].id
  {
  }

  lemma FreshTail(accounts: seq<Account>, keys: Keys, keys': Keys)
    requires accounts != [] && Fresh(accounts, keys) && keys'.Keys == keys.Keys
    requires forall k :: 0 <= k < |accounts[1..]| ==> accounts[1..][k].id != accounts[0].id
    requires forall id :: id in keys && id != accounts[0].id ==> keys'[id] == keys[id]
    ensures Fresh(accounts[1..], keys')
    ensures accounts[0].id in keys && CurrentSort(accounts[0]) == Shown(keys[accounts[0].id])
    ensures forall k :: 0 <= k < |accounts| ==> accounts[k].id in keys
  {
  }

  lemma ResumeHead(account: Account, rest: seq<Account>, keys: Keys, index: nat)
    requires account.id in keys
    ensures UpdatesFrom(Refresh([account] + rest, keys), index) ==
              (if Shown(keys[account.id]) != index * ACCOUNT_SORT_STEP
               then [SortUpdate(account.id, index * ACCOUNT_SORT_STEP)] else [])
              + UpdatesFrom(Refresh(rest, keys), index + 1)
  {
    assert Refresh([account] + rest, keys) == [Refetched(account, keys)] + Refresh(rest, keys);
    UpdatesCons(Refetched(account, keys), Refresh(rest, keys), index);
  }

  /**
   * A run that failed after any number of updates can simply be repeated: with the keys fetched
   * again, the updates needed for the same order are exactly the ones not sent yet.
   */
  lemma ResumeAfterFailure(ordered: seq<Account>, keys: Keys, p: nat)
    requires UniqueIds(ordered) && Fresh(ordered, keys) && p <= |OrderUpdates(ordered)|
    ensures OrderUpdates(Refresh(ordered, ApplyAll(keys, OrderUpdates(ordered)[..p]))) == OrderUpdates(ordered)[p..]
  {
    Resume(ordered, 0, keys, p);
  }

  lemma {:induction false} NoUpdatesMeansRight(accounts: seq<Account>, index: nat)
    ensures UpdatesFrom(accounts, index) == [] <==>
            forall k :: 0 <= k < |accounts| ==> CurrentSort(accounts[k]) == (index + k) * ACCOUNT_SORT_STEP
  {
    hide CurrentSort;
    if accounts != [] {
      NoUpdatesMeansRight(accounts[1..], index + 1);
      if UpdatesFrom(accounts, index) == [] {
        forall k | 0 <= k < |accounts| ensures CurrentSort(accounts[k]) == (index + k) * ACCOUNT_SORT_STEP {
          if k > 0 { assert accounts[k] == accounts[1..][k - 1]; }
        }
      }
    }
  }

  /** Exactly the accounts whose key is wrong get an update, and it carries the right key. */
  lemma {:induction false} UpdatesExactly(accounts: seq<Account>, index: nat, k: nat)
    requires UniqueIds(accounts) && k < |accounts|
    ensures forall sort :: SortUpdate(accounts[k].id, sort) in UpdatesFrom(accounts, index) <==>
              sort == (index + k) * ACCOUNT_SORT_STEP != CurrentSort(accounts[k])
  {
    hide CurrentSort;
    UpdatesIds(accounts[1..], index + 1);
    var rest := UpdatesFrom(accounts[1..], index + 1);
    if k == 0 {
      forall u | u in rest ensures u.accountId != accounts[0].id {
        var j :| 0 <= j < |accounts[1..]| && accounts[1..][j].id == u.accountId;
        assert accounts[j + 1].id == u.accountId;
      }
    } else {
      assert accounts[0].id != accounts[k].id;
      UpdatesExactly(accounts[1..], index + 1, k - 1);
      assert accounts[1..][k - 1] == accounts[k];
      UpdatesCons(accounts[0], accounts[1..], index);
      assert accounts == [accounts[0]] + accounts[1..];
    }
  }

  /** In the fields of the account: it is updated to 5k exactly if its priority, or else its sort, is another number. */
  lemma UpdatesByFields(accounts: seq<Account>, k: nat)
    requires UniqueIds(accounts) && k < |accounts|
    ensures forall sort :: SortUpdate(accounts[k].id, sort) in OrderUpdates(accounts) <==>
              sort == 5 * k
                && sort != match accounts[k].priority { case Some(key) => key case None => accounts[k].sort }
  {
    UpdatesExactly(accounts, 0, k);
  }

  lemma {:induction false} AppliedValue(keys: Keys, updates: seq<SortUpdate>, id: string)
    requires id in keys
    ensures var value := ApplyAll(keys, updates)[id]; value == keys[id] || SortUpdate(id, value) in updates
  {
    if updates != [] { AppliedValue(Applied(keys, updates[0]), updates[1..], id); }
  }

  /** The stored key at position k afterwards: 5k, except that a negative key at the front is shown as zero and left. */
  lemma StoredKeys(ordered: seq<Account>, keys: Keys, k: nat)
    requires UniqueIds(ordered) && Fresh(ordered, keys) && k < |ordered|
    ensures var id := ordered[k].id;
            ApplyAll(keys, OrderUpdates(ordered))[id] == if k == 0 && keys[id] < 0 then keys[id] else 5 * k
  {
    hide UniqueIds, ApplyAll, OrderUpdates;
    var id, updates := ordered[k].id, OrderUpdates(ordered);
    OrderIsApplied(ordered, keys);
    AppliedValue(keys, updates, id);
    ExactlyAt(ordered, k);
  }

  lemma ExactlyAt(ordered: seq<Account>, k: nat)
    requires UniqueIds(ordered) && k < |ordered|
    ensures forall sort :: SortUpdate(ordered[k].id, sort) in OrderUpdates(ordered) <==>
              sort == k * ACCOUNT_SORT_STEP != CurrentSort(ordered[k])
  {
    UpdatesExactly(ordered, 0, k);
  }

  ghost predicate Increasing(accounts: seq<Account>, keys: Keys) {
    && (forall k :: 0 <= k < |accounts| ==> accounts[k].id in keys)
    && (forall j, k :: 0 <= j < k < |accounts| ==> keys[accounts[j].id] < keys[accounts[k].id])
  }

  /**
   * Once all updates are applied, the account at position i shows key 5i, the stored keys increase
   * strictly along the requested order (even where the client hid a negative key), and keys of
   * other accounts are as before.
   */
  lemma OrderIsApplied(ordered: seq<Account>, keys: Keys)
    requires UniqueIds(ordered) && Fresh(ordered, keys)
    ensures var now := ApplyAll(keys, OrderUpdates(ordered));
            && (forall k :: 0 <= k < |ordered| ==> Shown(now[ordered[k].id]) == k * ACCOUNT_SORT_STEP)
            && Increasing(ordered, now)
            && (forall id :: id in keys && (forall k :: 0 <= k < |ordered| ==> ordered[k].id != id) ==>
              now[id] == keys[id])
  {
    hide UniqueIds, ApplyAll;
    var updates := OrderUpdates(ordered);
    var now := ApplyAll(keys, updates);
    ResumeAfterFailure(ordered, keys, |updates|);
    assert updates[..|updates|] == updates;
    var refreshed := Refresh(ordered, now);
    NoUpdatesMeansRight(refreshed, 0);
    forall k | 0 <= k < |ordered| ensures Shown(now[ordered[k].id]) == k * ACCOUNT_SORT_STEP {
      assert CurrentSort(refreshed[k]) == Shown(now[ordered[k].id]);
    }
    UpdatesIds(ordered, 0);
    forall id | id in keys && (forall k :: 0 <= k < |ordered| ==> ordered[k].id != id) ensures now[id] == keys[id] {
      ApplyOthers(keys, updates, id);
    }
  }

  // ------------------------------------------------------ the list comes back

  /** What a refetch may show: the accounts in some order that is sorted by stored key, ties as they fall. */
  ghost predicate Listing(shown: seq<Account>, accounts: seq<Account>, keys: Keys) {
    && multiset(shown) == multiset(accounts)
    && (forall k :: 0 <= k < |shown| ==> shown[k].id in keys)
    && (forall j, k :: 0 <= j < k < |shown| ==> keys[shown[j].id] <= keys[shown[k].id])
  }

  lemma SmallestFirst(shown: seq<Account>, ordered: seq<Account>, keys: Keys)
    requires Listing(shown, ordered, keys) && ordered != []
    requires Increasing(ordered, keys)
    ensures shown != [] && shown[0] == ordered[0]
  {
    assert ordered[0] in multiset(ordered);
    assert ordered[0] in shown;
    var n :| 0 <= n < |shown| && shown[n] == ordered[0];
    assert shown[0] in multiset(shown);
    assert shown[0] in ordered;
    var m :| 0 <= m < |ordered| && ordered[m] == shown[0];
    assert n == 0 || keys[shown[0].id] <= keys[shown[n].id];
  }

  lemma ListingOfNone(shown: seq<Account>, keys: Keys)
    requires Listing(shown, [], keys)
    ensures shown == []
  {
    assert |multiset(shown)| == |shown|;
  }

  lemma ListingTail(shown: seq<Account>, ordered: seq<Account>, keys: Keys)
    requires Listing(shown, ordered, keys) && Increasing(ordered, keys)
    requires shown != [] && ordered != [] && shown[0] == ordered[0]
    ensures Listing(shown[1..], ordered[1..], keys) && Increasing(ordered[1..], keys)
  {
    TailMultiset(shown);
    TailMultiset(ordered);
  }

  lemma TailMultiset(accounts: seq<Account>)
    requires accounts != []
    ensures multiset(accounts[1..]) == multiset(accounts) - multiset{accounts[0]}
  {
    assert accounts == [accounts[0]] + accounts[1..];
  }

  /** Strictly increasing keys leave a refetch no choice. */
  lemma {:induction false} ListingUnique(shown: seq<Account>, ordered: seq<Account>, keys: Keys)
    requires Listing(shown, ordered, keys)
    requires Increasing(ordered, keys)
    ensures shown == ordered
  {
    hide Listing, Increasing;
    if ordered == [] {
      ListingOfNone(shown, keys);
    } else {
      SmallestFirst(shown, ordered, keys);
      ListingTail(shown, ordered, keys);
      ListingUnique(shown[1..], ordered[1..], keys);
      assert shown == [shown[0]] + shown[1..] && ordered == [ordered[0]] + ordered[1..];
    }
  }

  /** After all updates, every refetch shows exactly the requested order. */
  lemma RefetchShowsOrder(ordered: seq<Account>, keys: Keys, shown: seq<Account>)
    requires UniqueIds(ordered) && Fresh(ordered, keys)
    requires var now := ApplyAll(keys, OrderUpdates(ordered)); Listing(shown, Refresh(ordered, now), now)
    ensures shown == Refresh(ordered, ApplyAll(keys, OrderUpdates(ordered)))
  {
    hide UniqueIds, ApplyAll, OrderUpdates, Listing, Fresh;
    var now := ApplyAll(keys, OrderUpdates(ordered));
    OrderIsApplied(ordered, keys);
    FreshKnown(ordered, keys);
    ListingUnique(shown, Refresh(ordered, now), now);
  }

  /** The view does not look at sort keys: search text, plan and status only. */
  ghost predicate KeyBlind(view: Account -> bool) {
    forall account: Account, priority, sort :: view(account.(priority := priority, sort := sort)) == view(account)
  }

  function Ids(accounts: seq<Account>): (r: seq<string>)
    ensures |r| == |accounts| && forall k :: 0 <= k < |r| ==> r[k] == accounts[k].id
  {
    seq(|accounts|, k requires 0 <= k < |accounts| => accounts[k].id)
  }

  lemma {:induction false} FilterRefreshed(view: Account -> bool, accounts: seq<Account>, keys: Keys)
    requires KeyBlind(view)
    ensures Ids(Filter(view, Refresh(accounts, keys))) == Ids(Filter(view, accounts))
  {
    if accounts != [] {
      var account, rest := accounts[0], accounts[1..];
      FilterRefreshed(view, rest, keys);
      assert Refresh(accounts, keys) == [Refetched(account, keys)] + Refresh(rest, keys);
      FilterCons(view, Refetched(account, keys), Refresh(rest, keys));
      assert view(Refetched(account, keys)) == view(account);
      IdsCons(account, Filter(view, rest));
      IdsCons(Refetched(account, keys), Filter(view, Refresh(rest, keys)));
    }
  }

  lemma IdsCons(account: Account, rest: seq<Account>)
    ensures Ids([account] + rest) == [account.id] + Ids(rest)
  {
  }

  lemma FreshPermute(accounts: seq<Account>, others: seq<Account>, keys: Keys)
    requires Fresh(accounts, keys) && multiset(accounts) == multiset(others)
    ensures Fresh(others, keys)
  {
    forall k | 0 <= k < |others| ensures others[k].id in keys && CurrentSort(others[k]) == Shown(keys[others[k].id]) {
      assert others[k] in multiset(others);
      assert others[k] in accounts;
    }
  }

  /**
   * One click end to end: a move in a view, the updates it needs, all of them applied, and the list
   * fetched again. Whatever a refetch does with equal keys, the view then shows the same ids with
   * exactly the two neighbours swapped.
   */
  lemma MoveEndToEnd(accounts: seq<Account>, view: Account -> bool, k: nat, direction: Direction, keys: Keys,
                     shown: seq<Account>)
    requires UniqueIds(accounts) && Fresh(accounts, keys) && KeyBlind(view)
    requires k + 1 < |Filter(view, accounts)|
    requires var f := Filter(view, accounts);
             var r := Move(accounts, view, if direction.Up? then f[k + 1] else f[k], direction);
             r.Reordered? &&
             var now := ApplyAll(keys, OrderUpdates(r.accounts));
             Listing(shown, Refresh(r.accounts, now), now)
    ensures var ids := Ids(Filter(view, accounts));
            Ids(Filter(view, shown)) == ids[k := ids[k + 1]][k + 1 := ids[k]]
  {
    hide UniqueIds, ApplyAll, OrderUpdates, Listing, Fresh, Move, Filter, KeyBlind;
    MoveSwapsNeighbours(accounts, view, k, direction);
    var f := Filter(view, accounts);
    var ordered := Move(accounts, view, if direction.Up? then f[k + 1] else f[k], direction).accounts;
    FreshPermute(accounts, ordered, keys);
    RefetchShowsOrder(ordered, keys, shown);
    FilterRefreshed(view, ordered, ApplyAll(keys, OrderUpdates(ordered)));
  }

  // --------------------------------------------------------- size groups

  datatype SizeGroup = Large | Standard | Small

  datatype SizeMode = LargeFirst | SmallFirst

  function PlanKey(account: Account): string {
    var plan := ToLower(Trim(JavaScript, if account.planType.Some? then account.planType.value else ""));
    if plan == "" then "unknown" else plan
  }

  function GroupOf(account: Account): SizeGroup {
    var plan := PlanKey(account);
    if plan in ["plus", "pro", "team", "business", "enterprise"] then Large
    else if plan == "free" then Small
    else Standard
  }

  function InGroup(group: SizeGroup): Account -> bool {
    (account: Account) => GroupOf(account) == group
  }

  function First(mode: SizeMode): SizeGroup { if mode.LargeFirst? then Large else Small }
  function Last(mode: SizeMode): SizeGroup { if mode.LargeFirst? then Small else Large }

  /** A stable order by group. */
  function BySize(accounts: seq<Account>, mode: SizeMode): seq<Account> {
    Filter(InGroup(First(mode)), accounts) + Filter(InGroup(Standard), accounts) + Filter(InGroup(Last(mode)), accounts)
  }

  method BuildAccountsBySizeOrder(orderedAccounts: seq<Account>, mode: SizeMode) returns (r: seq<Account>)
    ensures r == BySize(orderedAccounts, mode)
  {
    hide Filter, GroupOf;
    var large, standard, small := [], [], [];
    assert orderedAccounts[..0] == [];
    FilterNone(InGroup(Large), []);
    FilterNone(InGroup(Standard), []);
    FilterNone(InGroup(Small), []);
    for n := 0 to |orderedAccounts|
      invariant large == Filter(InGroup(Large), orderedAccounts[..n])
      invariant standard == Filter(InGroup(Standard), orderedAccounts[..n])
      invariant small == Filter(InGroup(Small), orderedAccounts[..n])
    {
      var account := orderedAccounts[n];
      assert orderedAccounts[..n + 1] == orderedAccounts[..n] + [account];
      FilterSnoc(InGroup(Large), orderedAccounts[..n], account);
      FilterSnoc(InGroup(Standard), orderedAccounts[..n], account);
      FilterSnoc(InGroup(Small), orderedAccounts[..n], account);
      match GroupOf(account) {
        case Large => large := large + [account];
        case Standard => standard := standard + [account];
        case Small => small := small + [account];
      }
    }
    assert orderedAccounts[..|orderedAccounts|] == orderedAccounts;
    r := if mode.LargeFirst? then large + standard + small else small + standard + large;
  }

  function Rank(mode: SizeMode, group: SizeGroup): nat {
    if group == First(mode) then 0 else if group == Standard then 1 else 2
  }

  ghost predicate RankSorted(accounts: seq<Account>, mode: SizeMode) {
    forall j, k :: 0 <= j < k < |accounts| ==> Rank(mode, GroupOf(accounts[j])) <= Rank(mode, GroupOf(accounts[k]))
  }

  ghost predicate SameGroups(a: seq<Account>, b: seq<Account>) {
    forall group :: Filter(InGroup(group), a) == Filter(InGroup(group), b)
  }

  lemma {:induction false} FilterFilter(g: SizeGroup, h: SizeGroup, accounts: seq<Account>)
    ensures Filter(InGroup(g), Filter(InGroup(h), accounts)) == if g == h then Filter(InGroup(g), accounts) else []
  {
    hide GroupOf;
    var kept := Filter(InGroup(h), accounts);
    FilterKept(InGroup(h), accounts);
    if g == h {
      FilterAll(InGroup(g), kept);
    } else {
      FilterNone(InGroup(g), kept);
    }
  }

  lemma BySizeKeepsGroup(accounts: seq<Account>, mode: SizeMode, group: SizeGroup)
    ensures Filter(InGroup(group), BySize(accounts, mode)) == Filter(InGroup(group), accounts)
  {
    hide Filter, InGroup;
    var first := Filter(InGroup(First(mode)), accounts);
    var standard := Filter(InGroup(Standard), accounts);
    var last := Filter(InGroup(Last(mode)), accounts);
    FilterAppend(InGroup(group), first + standard, last);
    FilterAppend(InGroup(group), first, standard);
    FilterFilter(group, First(mode), accounts);
    FilterFilter(group, Standard, accounts);
    FilterFilter(group, Last(mode), accounts);
  }

  lemma {:induction false} GroupsPartition(accounts: seq<Account>)
    ensures multiset(Filter(InGroup(Large), accounts)) + multiset(Filter(InGroup(Standard), accounts))
            + multiset(Filter(InGroup(Small), accounts)) == multiset(accounts)
  {
    hide GroupOf;
    if accounts != [] {
      assert accounts == [accounts[0]] + accounts[1..];
      GroupsPartition(accounts[1..]);
    }
  }

  lemma BySizeSorted(accounts: seq<Account>, mode: SizeMode)
    ensures RankSorted(BySize(accounts, mode), mode)
  {
    hide GroupOf, Filter;
    FilterKept(InGroup(First(mode)), accounts);
    FilterKept(InGroup(Standard), accounts);
    FilterKept(InGroup(Last(mode)), accounts);
  }

  lemma RankTail(accounts: seq<Account>, mode: SizeMode)
    requires accounts != [] && RankSorted(accounts, mode)
    ensures RankSorted(accounts[1..], mode)
    ensures forall k :: 0 <= k < |accounts[1..]| ==>
              Rank(mode, GroupOf(accounts[0])) <= Rank(mode, GroupOf(accounts[1..][k]))
  {
  }

  lemma {:induction false} SortedStays(accounts: seq<Account>, mode: SizeMode)
    requires RankSorted(accounts, mode)
    ensures BySize(accounts, mode) == accounts
  {
    hide GroupOf, RankSorted, Filter;
    if accounts == [] {
      FilterNone(InGroup(Large), accounts);
      FilterNone(InGroup(Standard), accounts);
      FilterNone(InGroup(Small), accounts);
    } else {
      var account, rest := accounts[0], accounts[1..];
      assert accounts == [account] + rest;
      RankTail(accounts, mode);
      SortedStays(rest, mode);
      FilterCons(InGroup(First(mode)), account, rest);
      FilterCons(InGroup(Standard), account, rest);
      FilterCons(InGroup(Last(mode)), account, rest);
      var rank := Rank(mode, GroupOf(account));
      if rank >= 1 { FilterNone(InGroup(First(mode)), rest); }
      if rank == 2 { FilterNone(InGroup(Standard), rest); }
      var standard, last := Filter(InGroup(Standard), rest), Filter(InGroup(Last(mode)), rest);
      if rank == 0 {
        var first := Filter(InGroup(First(mode)), rest);
        assert [account] + first + standard + last == [account] + (first + standard + last);
      } else {
        assert [] + ([account] + standard) + last == [account] + ([] + standard + last);
        assert [] + [] + ([account] + last) == [account] + ([] + [] + last);
      }
    }
  }

  /**
   * The bucket pass is the stable sort by group: a permutation, in rank order, that keeps the order
   * inside each group; and it is the only list with these properties.
   */
  lemma BySizeIsStableSort(accounts: seq<Account>, mode: SizeMode, other: seq<Account>)
    ensures multiset(BySize(accounts, mode)) == multiset(accounts)
    ensures RankSorted(BySize(accounts, mode), mode) && SameGroups(BySize(accounts, mode), accounts)
    ensures RankSorted(other, mode) && SameGroups(other, accounts) ==> other == BySize(accounts, mode)
  {
    hide Filter, InGroup, RankSorted;
    forall group ensures Filter(InGroup(group), BySize(accounts, mode)) == Filter(InGroup(group), accounts) {
      BySizeKeepsGroup(accounts, mode, group);
    }
    GroupsPartition(accounts);
    BySizeSorted(accounts, mode);
    if RankSorted(other, mode) && SameGroups(other, accounts) {
      SortedStays(other, mode);
    }
  }

  /** Sorting again is the same as sorting once, and an earlier opposite sort leaves no trace. */
  lemma BySizeAbsorbs(accounts: seq<Account>, earlier: SizeMode, later: SizeMode)
    ensures BySize(BySize(accounts, earlier), later) == BySize(accounts, later)
  {
    hide Filter, InGroup;
    BySizeKeepsGroup(accounts, earlier, Large);
    BySizeKeepsGroup(accounts, earlier, Standard);
    BySizeKeepsGroup(accounts, earlier, Small);
  }

  lemma RefreshKeepsRank(accounts: seq<Account>, mode: SizeMode, keys: Keys)
    requires RankSorted(accounts, mode)
    ensures RankSorted(Refresh(accounts, keys), mode)
  {
    hide GroupOf;
    forall k | 0 <= k < |accounts| ensures GroupOf(Refresh(accounts, keys)[k]) == GroupOf(accounts[k]) {
      RefetchKeepsGroup(accounts[k], keys);
    }
  }

  lemma RefetchKeepsGroup(account: Account, keys: Keys)
    ensures GroupOf(Refetched(account, keys)) == GroupOf(account)
  {
  }

  /** Applied once, the size order needs no further updates, however the list is fetched again. */
  lemma SizeSortSettles(accounts: seq<Account>, mode: SizeMode, keys: Keys, shown: seq<Account>)
    requires UniqueIds(accounts) && Fresh(accounts, keys)
    requires var ordered := BySize(accounts, mode);
             var now := ApplyAll(keys, OrderUpdates(ordered));
             Listing(shown, Refresh(ordered, now), now)
    ensures OrderUpdates(BySize(shown, mode)) == []
  {
    hide UniqueIds, ApplyAll, OrderUpdates, Listing, Fresh, BySize, RankSorted, SameGroups;
    var ordered := BySize(accounts, mode);
    var updates := OrderUpdates(ordered);
    BySizeIsStableSort(accounts, mode, []);
    UniqueIdsPermute(accounts, ordered);
    FreshPermute(accounts, ordered, keys);
    RefetchShowsOrder(ordered, keys, shown);
    RefreshKeepsRank(ordered, mode, ApplyAll(keys, updates));
    SortedStays(shown, mode);
    ResumeAfterFailure(ordered, keys, |updates|);
    assert updates[..|updates|] == updates;
  }

  // ------------------------------------------------- the size order by plan

  const LARGE_PLANS := {"plus", "pro", "team", "business", "enterprise"}

  /** The plan as it is compared: without blanks around it, in lower case; none is the empty text. */
  function Plan(account: Account): string {
    match account.planType
    case None => ""
    case Some(plan) => ToLower(Trim(JavaScript, plan))
  }

  predicate IsLarge(account: Account) { Plan(account) in LARGE_PLANS }
  predicate IsFree(account: Account) { Plan(account) == "free" }

  lemma GroupByPlan(account: Account)
    ensures GroupOf(account) == Large <==> IsLarge(account)
    ensures GroupOf(account) == Small <==> IsFree(account)
  {
    hide Trim, ToLower;
    LowerOfNothing();
    assert "unknown"[0] == 'u' && "free"[0] == 'f';
  }

  lemma LowerOfNothing()
    ensures ToLower(Trim(JavaScript, "")) == ""
  {
  }

  /**
   * The order by plan: with large first, every account on a large plan stands before every other, and
   * every free one behind every other; with small first it is the reverse. The rest lies between.
   */
  lemma SizeOrderByPlan(accounts: seq<Account>, mode: SizeMode, j: nat, k: nat)
    requires j < k < |BySize(accounts, mode)|
    ensures var x, y := BySize(accounts, mode)[j], BySize(accounts, mode)[k];
            if mode.LargeFirst? then (IsLarge(y) ==> IsLarge(x)) && (IsFree(x) ==> IsFree(y))
            else (IsFree(y) ==> IsFree(x)) && (IsLarge(x) ==> IsLarge(y))
  {
    hide GroupOf, Filter, IsLarge, IsFree;
    var x, y := BySize(accounts, mode)[j], BySize(accounts, mode)[k];
    BySizeSorted(accounts, mode);
    GroupByPlan(x);
    GroupByPlan(y);
  }

  /** It is a permutation, and the large, the free and the other accounts each keep their order. */
  lemma SizeOrderKeepsPlans(accounts: seq<Account>, mode: SizeMode)
    ensures var r := BySize(accounts, mode);
            && multiset(r) == multiset(accounts)
            && Filter(IsLarge, r) == Filter(IsLarge, accounts)
            && Filter(IsFree, r) == Filter(IsFree, accounts)
            && Filter((account: Account) => !IsLarge(account) && !IsFree(account), r)
               == Filter((account: Account) => !IsLarge(account) && !IsFree(account), accounts)
  {
    hide GroupOf, Filter, IsLarge, IsFree, BySize;
    BySizeIsStableSort(accounts, mode, []);
    var r := BySize(accounts, mode);
    forall list | list == r || list == accounts
      ensures Filter(IsLarge, list) == Filter(InGroup(Large), list)
      ensures Filter(IsFree, list) == Filter(InGroup(Small), list)
      ensures Filter((account: Account) => !IsLarge(account) && !IsFree(account), list)
                == Filter(InGroup(Standard), list)
    {
      forall k | 0 <= k < |list|
        ensures IsLarge(list[k]) == InGroup(Large)(list[k]) && IsFree(list[k]) == InGroup(Small)(list[k])
        ensures InGroup(Standard)(list[k]) == (!IsLarge(list[k]) && !IsFree(list[k]))
      {
        GroupByPlan(list[k]);
      }
      FilterAgree(IsLarge, InGroup(Large), list);
      FilterAgree(IsFree, InGroup(Small), list);
      FilterAgree((account: Account) => !IsLarge(account) && !IsFree(account), InGroup(Standard), list);
    }
  }
}
