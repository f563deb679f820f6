/** Which stored account a login belongs to: a lookup in layers. */
module AccountLookup {
  import opened Text
  import opened Sequences
  import opened AccountIdentity

  datatype StoredAccount = StoredAccount(id: string, chatgptAccountId: Option<string>, workspaceId: Option<string>)

  function HasChatgpt(chatgpt: string): StoredAccount -> bool {
    (account: StoredAccount) => SameNormalized(account.chatgptAccountId, Some(chatgpt))
  }

  function HasWorkspace(workspace: string): StoredAccount -> bool {
    (account: StoredAccount) => SameNormalized(account.workspaceId, Some(workspace))
  }

  function HasPair(chatgpt: string, workspace: string): StoredAccount -> bool {
    (account: StoredAccount) => HasChatgpt(chatgpt)(account) && HasWorkspace(workspace)(account)
  }

  function HasOnlyChatgpt(chatgpt: string): StoredAccount -> bool {
    (account: StoredAccount) => HasChatgpt(chatgpt)(account) && NormalizeNonEmpty(account.workspaceId).None?
  }

  function HasId(id: string): StoredAccount -> bool {
    (account: StoredAccount) => account.id == id
  }

  function IdOf(found: Option<StoredAccount>): Option<string> {
    match found
    case None => None
    case Some(account) => Some(account.id)
  }

  function OrElse(first: Option<string>, second: Option<string>): Option<string> {
    if first.Some? then first else second
  }

  function PickByChatgpt(accounts: seq<StoredAccount>, chatgpt: string): Option<string> {
    var matched := Filter(HasChatgpt(chatgpt), accounts);
    if |matched| == 1 then Some(matched[0].id) else IdOf(FindFirst(HasOnlyChatgpt(chatgpt), accounts))
  }

  function PickById(accounts: seq<StoredAccount>, id: Option<string>): Option<string> {
    match NormalizeNonEmpty(id)
    case None => None
    case Some(wanted) => IdOf(FindFirst(HasId(wanted), accounts))
  }

  datatype Query = Query(
    chatgpt: Option<string>, workspace: Option<string>, fallbackKey: Option<string>, hint: Option<string>)

  function PickByHints(accounts: seq<StoredAccount>, q: Query): Option<string> {
    OrElse(PickById(accounts, q.hint), PickById(accounts, q.fallbackKey))
  }

  function PickExistingAccountId(accounts: seq<StoredAccount>, q: Query): Option<string> {
    match (NormalizeNonEmpty(q.chatgpt), NormalizeNonEmpty(q.workspace))
    case (Some(c), Some(w)) => IdOf(FindFirst(HasPair(c, w), accounts))
    case (Some(c), None) => OrElse(PickByChatgpt(accounts, c), PickByHints(accounts, q))
    case (None, Some(w)) => OrElse(IdOf(FindFirst(HasWorkspace(w), accounts)), PickByHints(accounts, q))
    case (None, None) => PickByHints(accounts, q)
  }

  predicate Lists(accounts: seq<StoredAccount>, id: string) {
    exists k :: 0 <= k < |accounts| && accounts[k].id == id
  }

  lemma FoundIsListed(p: StoredAccount -> bool, accounts: seq<StoredAccount>)
    ensures FindFirst(p, accounts).Some? ==> Lists(accounts, FindFirst(p, accounts).value.id)
  {
    var found := FindFirst(p, accounts);
    if found.Some? {
      var k :| 0 <= k < |accounts| && accounts[k] == found.value;
    }
  }

  /** Whatever is picked is the id of a listed account. */
  lemma PickedIsListed(accounts: seq<StoredAccount>, q: Query)
    ensures var r := PickExistingAccountId(accounts, q); r.Some? ==> Lists(accounts, r.value)
  {
    hide FindFirst, Filter, NormalizeNonEmpty, Lists;
    PickedByIdIsListed(accounts, q.hint);
    PickedByIdIsListed(accounts, q.fallbackKey);
    match (NormalizeNonEmpty(q.chatgpt), NormalizeNonEmpty(q.workspace))
    case (Some(c), Some(w)) => FoundIsListed(HasPair(c, w), accounts);
    case (Some(c), None) => PickedByChatgptIsListed(accounts, c);
    case (None, Some(w)) => FoundIsListed(HasWorkspace(w), accounts);
    case (None, None) =>
  }

  lemma PickedByIdIsListed(accounts: seq<StoredAccount>, id: Option<string>)
    ensures PickById(accounts, id).Some? ==> Lists(accounts, PickById(accounts, id).value)
  {
    match NormalizeNonEmpty(id)
    case None =>
    case Some(wanted) => FoundIsListed(HasId(wanted), accounts);
  }

  lemma PickedByChatgptIsListed(accounts: seq<StoredAccount>, chatgpt: string)
    ensures PickByChatgpt(accounts, chatgpt).Some? ==> Lists(accounts, PickByChatgpt(accounts, chatgpt).value)
  {
    hide Filter, FindFirst;
    FoundIsListed(HasOnlyChatgpt(chatgpt), accounts);
    FilterKept(HasChatgpt(chatgpt), accounts);
    var matched := Filter(HasChatgpt(chatgpt), accounts);
    if |matched| == 1 {
      assert matched[0] in accounts;
      var k :| 0 <= k < |accounts| && accounts[k] == matched[0];
    }
  }

  /** With both ids given only a pair match counts: the hints are not even looked at. */
  lemma PairDecides(accounts: seq<StoredAccount>, q: Query, c: string, w: string, otherHints: Query)
    requires NormalizeNonEmpty(q.chatgpt) == Some(c) && NormalizeNonEmpty(q.workspace) == Some(w)
    requires otherHints.chatgpt == q.chatgpt && otherHints.workspace == q.workspace
    ensures PickExistingAccountId(accounts, q).Some? <==>
              exists account :: account in accounts && NormalizeNonEmpty(account.chatgptAccountId) == Some(c)
                                                    && NormalizeNonEmpty(account.workspaceId) == Some(w)
    ensures PickExistingAccountId(accounts, otherHints) == PickExistingAccountId(accounts, q)
  {
    hide FindFirst, NormalizeNonEmpty;
    NormalizeTwice(q.chatgpt);
    NormalizeTwice(q.workspace);
    forall account ensures HasPair(c, w)(account) <==>
        NormalizeNonEmpty(account.chatgptAccountId) == Some(c) && NormalizeNonEmpty(account.workspaceId) == Some(w)
    {
      PairMeans(c, w, account);
    }
    var found := FindFirst(HasPair(c, w), accounts);
    if found.Some? {
      assert found.value in accounts && HasPair(c, w)(found.value);
    }
  }

  lemma PairMeans(c: string, w: string, account: StoredAccount)
    requires NormalizeNonEmpty(Some(c)) == Some(c) && NormalizeNonEmpty(Some(w)) == Some(w)
    ensures HasPair(c, w)(account) <==>
              && NormalizeNonEmpty(account.chatgptAccountId) == Some(c)
              && NormalizeNonEmpty(account.workspaceId) == Some(w)
  {
    hide NormalizeNonEmpty;
    assert HasChatgpt(c)(account) <==> SameNormalized(account.chatgptAccountId, Some(c));
  }

  lemma NormalizeTwice(value: Option<string>)
    ensures var once := NormalizeNonEmpty(value); NormalizeNonEmpty(once) == once
  {
  }

  // -------------------------------------------------------- order of the list

  predicate UniqueStoredIds(accounts: seq<StoredAccount>) {
    forall i, j :: 0 <= i < j < |accounts| ==> accounts[i].id != accounts[j].id
  }

  /** Accounts carrying a chatgpt id differ in the pair of scope ids. */
  predicate DistinctScopes(accounts: seq<StoredAccount>) {
    forall i, j :: 0 <= i < j < |accounts| && NormalizeNonEmpty(accounts[i].chatgptAccountId).Some? ==>
      !SameNormalized(accounts[i].chatgptAccountId, accounts[j].chatgptAccountId)
      || !SameNormalized(accounts[i].workspaceId, accounts[j].workspaceId)
  }

  ghost predicate Permuted(a: seq<StoredAccount>, b: seq<StoredAccount>) {
    multiset(a) == multiset(b)
  }

  lemma ByIdPermuted(a: seq<StoredAccount>, b: seq<StoredAccount>, id: Option<string>)
    requires UniqueStoredIds(a) && Permuted(a, b)
    ensures PickById(a, id) == PickById(b, id)
  {
    hide NormalizeNonEmpty, FindFirst;
    match NormalizeNonEmpty(id)
    case None =>
    case Some(wanted) => FindFirstPermuted(HasId(wanted), a, b);
  }

  lemma HintsPermuted(a: seq<StoredAccount>, b: seq<StoredAccount>, q: Query)
    requires UniqueStoredIds(a) && Permuted(a, b)
    ensures PickByHints(a, q) == PickByHints(b, q)
  {
    hide PickById;
    ByIdPermuted(a, b, q.hint);
    ByIdPermuted(a, b, q.fallbackKey);
  }

  /** At most one account has a given chatgpt id together with a given workspace, present or not. */
  lemma ScopeIsUnique(accounts: seq<StoredAccount>, chatgpt: string, x: StoredAccount, y: StoredAccount)
    requires DistinctScopes(accounts) && x in accounts && y in accounts
    requires NormalizeNonEmpty(Some(chatgpt)).Some?
    requires HasChatgpt(chatgpt)(x) && HasChatgpt(chatgpt)(y) && SameNormalized(x.workspaceId, y.workspaceId)
    ensures x == y
  {
    hide NormalizeNonEmpty;
    var i :| 0 <= i < |accounts| && accounts[i] == x;
    var j :| 0 <= j < |accounts| && accounts[j] == y;
  }

  lemma PairPermuted(a: seq<StoredAccount>, b: seq<StoredAccount>, c: string, w: string)
    requires DistinctScopes(a) && Permuted(a, b) && NormalizeNonEmpty(Some(c)).Some?
    ensures FindFirst(HasPair(c, w), a) == FindFirst(HasPair(c, w), b)
  {
    hide NormalizeNonEmpty, FindFirst, DistinctScopes;
    forall x, y | x in a && y in a && HasPair(c, w)(x) && HasPair(c, w)(y) ensures x == y {
      ScopeIsUnique(a, c, x, y);
    }
    FindFirstPermuted(HasPair(c, w), a, b);
  }

  lemma ChatgptPermuted(a: seq<StoredAccount>, b: seq<StoredAccount>, c: string)
    requires DistinctScopes(a) && Permuted(a, b) && NormalizeNonEmpty(Some(c)).Some?
    ensures PickByChatgpt(a, c) == PickByChatgpt(b, c)
  {
    hide NormalizeNonEmpty, FindFirst, Filter, DistinctScopes;
    FilterPermuted(HasChatgpt(c), a, b);
    var ma, mb := Filter(HasChatgpt(c), a), Filter(HasChatgpt(c), b);
    if |ma| == 1 {
      assert ma == [ma[0]] && mb == [mb[0]];
      assert multiset{ma[0]} == multiset{mb[0]};
      assert ma[0] in multiset{mb[0]};
    }
    forall x, y | x in a && y in a && HasOnlyChatgpt(c)(x) && HasOnlyChatgpt(c)(y) ensures x == y {
      ScopeIsUnique(a, c, x, y);
    }
    FindFirstPermuted(HasOnlyChatgpt(c), a, b);
  }

  predicate WorkspaceOnly(q: Query) {
    NormalizeNonEmpty(q.chatgpt).None? && NormalizeNonEmpty(q.workspace).Some?
  }

  /** Unless only a workspace is asked for, the answer does not depend on the order of the list. */
  lemma PickIgnoresOrder(a: seq<StoredAccount>, b: seq<StoredAccount>, q: Query)
    requires UniqueStoredIds(a) && DistinctScopes(a) && Permuted(a, b) && !WorkspaceOnly(q)
    ensures PickExistingAccountId(a, q) == PickExistingAccountId(b, q)
  {
    hide NormalizeNonEmpty, FindFirst, PickByChatgpt, PickByHints, UniqueStoredIds, DistinctScopes, Permuted;
    NormalizeTwice(q.chatgpt);
    HintsPermuted(a, b, q);
    match (NormalizeNonEmpty(q.chatgpt), NormalizeNonEmpty(q.workspace))
    case (Some(c), Some(w)) => PairPermuted(a, b, c, w);
    case (Some(c), None) => ChatgptPermuted(a, b, c);
    case (None, _) =>
  }

  lemma WorkspaceAtMostOne(a: seq<StoredAccount>, b: seq<StoredAccount>, q: Query, w: string)
    requires UniqueStoredIds(a) && Permuted(a, b) && WorkspaceOnly(q) && NormalizeNonEmpty(q.workspace) == Some(w)
    requires |Filter(HasWorkspace(w), a)| <= 1
    ensures PickExistingAccountId(a, q) == PickExistingAccountId(b, q)
  {
    hide NormalizeNonEmpty, FindFirst, PickByHints, Filter, UniqueStoredIds, Permuted;
    HintsPermuted(a, b, q);
    forall x, y | x in a && y in a && HasWorkspace(w)(x) && HasWorkspace(w)(y) ensures x == y {
      FilterMember(HasWorkspace(w), a, x);
      FilterMember(HasWorkspace(w), a, y);
    }
    PermutedMeans(a, b);
    FindFirstPermuted(HasWorkspace(w), a, b);
  }

  lemma PermutedMeans(a: seq<StoredAccount>, b: seq<StoredAccount>)
    ensures Permuted(a, b) <==> multiset(a) == multiset(b)
  {
  }

  lemma FirstInFront(p: StoredAccount -> bool, x: StoredAccount, rest: seq<StoredAccount>)
    requires p(x)
    ensures FindFirst(p, [x] + rest) == Some(x)
  {
  }

  /** Two matches: bringing either of them to the front decides. */
  lemma WorkspaceTwoMatches(a: seq<StoredAccount>, q: Query, w: string)
    returns (b: seq<StoredAccount>, c: seq<StoredAccount>)
    requires UniqueStoredIds(a) && WorkspaceOnly(q) && NormalizeNonEmpty(q.workspace) == Some(w)
    requires |Filter(HasWorkspace(w), a)| > 1
    ensures Permuted(a, b) && Permuted(a, c) && PickExistingAccountId(b, q) != PickExistingAccountId(c, q)
  {
    hide NormalizeNonEmpty, FindFirst, Filter, PickByHints;
    var p, m := HasWorkspace(w), Filter(HasWorkspace(w), a);
    var before0, behind0 := Locate(p, a, 0);
    var before1, behind1 := Locate(p, a, 1);
    b, c := [m[0]] + (before0 + behind0), [m[1]] + (before1 + behind1);
    ToFront(before0, m[0], behind0);
    ToFront(before1, m[1], behind1);
    FirstInFront(p, m[0], before0 + behind0);
    FirstInFront(p, m[1], before1 + behind1);
    DifferentMatches(a, p);
  }

  lemma ToFront(before: seq<StoredAccount>, x: StoredAccount, behind: seq<StoredAccount>)
    ensures multiset([x] + (before + behind)) == multiset(before + [x] + behind)
  {
  }

  lemma DifferentMatches(accounts: seq<StoredAccount>, p: StoredAccount -> bool)
    requires UniqueStoredIds(accounts) && |Filter(p, accounts)| > 1
    ensures Filter(p, accounts)[0].id != Filter(p, accounts)[1].id
  {
    hide Filter;
    var before, behind := Locate(p, accounts, 0);
    assert Filter(p, behind)[0] == Filter(p, accounts)[1];
    FilterKept(p, behind);
    var k :| 0 <= k < |behind| && behind[k] == Filter(p, accounts)[1];
    assert accounts[|before|].id != accounts[|before| + 1 + k].id;
  }

  /**
   * A workspace-only question is answered the same for every order of the list exactly when at most
   * one account matches.
   */
  lemma WorkspaceOrderMatters(a: seq<StoredAccount>, q: Query, w: string)
    requires UniqueStoredIds(a) && WorkspaceOnly(q) && NormalizeNonEmpty(q.workspace) == Some(w)
    ensures |Filter(HasWorkspace(w), a)| <= 1 <==>
            forall b :: Permuted(a, b) ==> PickExistingAccountId(b, q) == PickExistingAccountId(a, q)
  {
    hide NormalizeNonEmpty, FindFirst, Filter, PickExistingAccountId, UniqueStoredIds, WorkspaceOnly, Permuted;
    if |Filter(HasWorkspace(w), a)| <= 1 {
      forall b | Permuted(a, b) ensures PickExistingAccountId(b, q) == PickExistingAccountId(a, q) {
        WorkspaceAtMostOne(a, b, q, w);
      }
    } else {
      var b, c := WorkspaceTwoMatches(a, q, w);
    }
  }

  // -------------------------------------------------------- the exact answer

  /** The answer is the id of the first account of this kind, if there is one. */
  ghost predicate FirstOf(accounts: seq<StoredAccount>, p: StoredAccount -> bool, answer: Option<string>) {
    match answer
    case None => forall k :: 0 <= k < |accounts| ==> !p(accounts[k])
    case Some(id) =>
      exists k :: 0 <= k < |accounts| && p(accounts[k]) && accounts[k].id == id
                 && forall j :: 0 <= j < k ==> !p(accounts[j])
  }

  ghost predicate AnyOf(accounts: seq<StoredAccount>, p: StoredAccount -> bool) {
    exists k :: 0 <= k < |accounts| && p(accounts[k])
  }

  /** The account at place k is of this kind, and no other is. */
  predicate OnlyAt(accounts: seq<StoredAccount>, p: StoredAccount -> bool, k: nat) {
    k < |accounts| && p(accounts[k]) && forall j :: 0 <= j < |accounts| && j != k ==> !p(accounts[j])
  }

  /** Carries these scope ids, trimmed; none stands for a blank or missing one. */
  function Scoped(chatgpt: Option<string>, workspace: Option<string>): StoredAccount -> bool {
    (account: StoredAccount) =>
      NormalizeNonEmpty(account.chatgptAccountId) == chatgpt && NormalizeNonEmpty(account.workspaceId) == workspace
  }

  function OfChatgpt(chatgpt: string): StoredAccount -> bool {
    (account: StoredAccount) => NormalizeNonEmpty(account.chatgptAccountId) == Some(chatgpt)
  }

  function OfWorkspace(workspace: string): StoredAccount -> bool {
    (account: StoredAccount) => NormalizeNonEmpty(account.workspaceId) == Some(workspace)
  }

  /** The hint if it is the id of an account, else the fallback key if it is one, else nothing. */
  ghost predicate ByKnownId(accounts: seq<StoredAccount>, q: Query, answer: Option<string>) {
    var hint, key := NormalizeNonEmpty(q.hint), NormalizeNonEmpty(q.fallbackKey);
    if hint.Some? && Lists(accounts, hint.value) then answer == hint
    else if key.Some? && Lists(accounts, key.value) then answer == key
    else answer == None
  }

  lemma {:induction false} FindsFirst(p: StoredAccount -> bool, accounts: seq<StoredAccount>)
    ensures FirstOf(accounts, p, IdOf(FindFirst(p, accounts)))
  {
    if accounts != [] && !p(accounts[0]) {
      FindsFirst(p, accounts[1..]);
      var found := FindFirst(p, accounts[1..]);
      if found.Some? {
        var k :| 0 <= k < |accounts[1..]| && p(accounts[1..][k]) && accounts[1..][k].id == found.value.id
                 && forall j :: 0 <= j < k ==> !p(accounts[1..][j]);
        assert accounts[k + 1] == accounts[1..][k];
        forall j | 0 <= j < k + 1 ensures !p(accounts[j]) {
          if j > 0 { assert accounts[j] == accounts[1..][j - 1]; }
        }
      }
    }
  }

  lemma FirstOfSame(accounts: seq<StoredAccount>, p: StoredAccount -> bool, p': StoredAccount -> bool,
                    answer: Option<string>)
    requires forall k :: 0 <= k < |accounts| ==> p(accounts[k]) == p'(accounts[k])
    ensures FirstOf(accounts, p, answer) == FirstOf(accounts, p', answer)
  {
  }

  lemma FindsById(accounts: seq<StoredAccount>, id: Option<string>)
    ensures var wanted := NormalizeNonEmpty(id);
            PickById(accounts, id) == if wanted.Some? && Lists(accounts, wanted.value) then wanted else None
  {
    hide NormalizeNonEmpty;
    var wanted := NormalizeNonEmpty(id);
    if wanted.Some? {
      var found := FindFirst(HasId(wanted.value), accounts);
      if k :| 0 <= k < |accounts| && accounts[k].id == wanted.value { assert HasId(wanted.value)(accounts[k]); }
      if found.Some? { var k :| 0 <= k < |accounts| && accounts[k] == found.value; }
    }
  }

  lemma HintsAnswer(accounts: seq<StoredAccount>, q: Query)
    ensures ByKnownId(accounts, q, PickByHints(accounts, q))
  {
    hide NormalizeNonEmpty, PickById, Lists;
    FindsById(accounts, q.hint);
    FindsById(accounts, q.fallbackKey);
  }

  lemma {:induction false} OnlyOne(accounts: seq<StoredAccount>, p: StoredAccount -> bool)
    ensures var m := Filter(p, accounts);
            && (|m| == 1 ==> exists k: nat :: OnlyAt(accounts, p, k) && accounts[k] == m[0])
            && (forall k: nat :: OnlyAt(accounts, p, k) ==> |m| == 1 && m[0] == accounts[k])
  {
    hide Filter;
    var m := Filter(p, accounts);
    if |m| == 1 {
      var before, behind := Locate(p, accounts, 0);
      NoneKept(p, before);
      NoneKept(p, behind);
      assert OnlyAt(accounts, p, |before|);
    }
    forall k: nat | OnlyAt(accounts, p, k) ensures |m| == 1 && m[0] == accounts[k] {
      var before, behind := accounts[..k], accounts[k + 1..];
      assert accounts == before + [accounts[k]] + behind;
      FilterNone(p, before);
      FilterNone(p, behind);
      FilterOne(p, accounts[k]);
      FilterAppend(p, before, [accounts[k]]);
      FilterAppend(p, before + [accounts[k]], behind);
    }
  }

  lemma NoneKept(p: StoredAccount -> bool, accounts: seq<StoredAccount>)
    requires Filter(p, accounts) == []
    ensures forall k :: 0 <= k < |accounts| ==> !p(accounts[k])
  {
    forall k | 0 <= k < |accounts| ensures !p(accounts[k]) { FilterMember(p, accounts, accounts[k]); }
  }

  lemma KindsAre(c: string, w: string, account: StoredAccount)
    ensures NormalizeNonEmpty(Some(c)) == Some(c) ==>
              && HasChatgpt(c)(account) == OfChatgpt(c)(account)
              && HasOnlyChatgpt(c)(account) == Scoped(Some(c), None)(account)
    ensures NormalizeNonEmpty(Some(w)) == Some(w) ==> HasWorkspace(w)(account) == OfWorkspace(w)(account)
    ensures NormalizeNonEmpty(Some(c)) == Some(c) && NormalizeNonEmpty(Some(w)) == Some(w) ==>
              HasPair(c, w)(account) == Scoped(Some(c), Some(w))(account)
  {
    hide NormalizeNonEmpty;
    assert HasChatgpt(c)(account) == SameNormalized(account.chatgptAccountId, Some(c));
    assert HasWorkspace(w)(account) == SameNormalized(account.workspaceId, Some(w));
  }

  /** Both ids given: the first account with that pair, or nothing. */
  lemma PairAnswer(accounts: seq<StoredAccount>, q: Query, c: string, w: string)
    requires NormalizeNonEmpty(q.chatgpt) == Some(c) && NormalizeNonEmpty(q.workspace) == Some(w)
    ensures FirstOf(accounts, Scoped(Some(c), Some(w)), PickExistingAccountId(accounts, q))
  {
    hide NormalizeNonEmpty, FindFirst, FirstOf;
    NormalizeTwice(q.chatgpt);
    NormalizeTwice(q.workspace);
    forall k | 0 <= k < |accounts| ensures HasPair(c, w)(accounts[k]) == Scoped(Some(c), Some(w))(accounts[k]) {
      KindsAre(c, w, accounts[k]);
    }
    FindsFirst(HasPair(c, w), accounts);
    FirstOfSame(accounts, HasPair(c, w), Scoped(Some(c), Some(w)), PickExistingAccountId(accounts, q));
  }

  /**
   * Only the chatgpt id given: the one account that has it; of several, the first without a
   * workspace; and if none of them qualifies, a known id.
   */
  lemma ChatgptAnswer(accounts: seq<StoredAccount>, q: Query, c: string)
    requires NormalizeNonEmpty(q.chatgpt) == Some(c) && NormalizeNonEmpty(q.workspace) == None
    ensures var r := PickExistingAccountId(accounts, q);
            && (forall k: nat :: OnlyAt(accounts, OfChatgpt(c), k) ==> r == Some(accounts[k].id))
            && ((forall k: nat :: !OnlyAt(accounts, OfChatgpt(c), k)) ==>
                  if AnyOf(accounts, Scoped(Some(c), None)) then FirstOf(accounts, Scoped(Some(c), None), r)
                  else ByKnownId(accounts, q, r))
  {
    hide NormalizeNonEmpty, FindFirst, Filter, PickByHints, ByKnownId;
    NormalizeTwice(q.chatgpt);
    forall k | 0 <= k < |accounts|
      ensures HasChatgpt(c)(accounts[k]) == OfChatgpt(c)(accounts[k])
      ensures HasOnlyChatgpt(c)(accounts[k]) == Scoped(Some(c), None)(accounts[k])
    {
      KindsAre(c, c, accounts[k]);
    }
    HintsAnswer(accounts, q);
    OnlyOne(accounts, HasChatgpt(c));
    forall k: nat ensures OnlyAt(accounts, OfChatgpt(c), k) == OnlyAt(accounts, HasChatgpt(c), k) {}
    FindsFirst(HasOnlyChatgpt(c), accounts);
    FirstOfSame(accounts, HasOnlyChatgpt(c), Scoped(Some(c), None), IdOf(FindFirst(HasOnlyChatgpt(c), accounts)));
  }

  /** Only the workspace given: the first account with it, or a known id. */
  lemma WorkspaceAnswer(accounts: seq<StoredAccount>, q: Query, w: string)
    requires NormalizeNonEmpty(q.chatgpt) == None && NormalizeNonEmpty(q.workspace) == Some(w)
    ensures var r := PickExistingAccountId(accounts, q);
            if AnyOf(accounts, OfWorkspace(w)) then FirstOf(accounts, OfWorkspace(w), r) else ByKnownId(accounts, q, r)
  {
    hide NormalizeNonEmpty, FindFirst, PickByHints, ByKnownId;
    NormalizeTwice(q.workspace);
    forall k | 0 <= k < |accounts| ensures HasWorkspace(w)(accounts[k]) == OfWorkspace(w)(accounts[k]) {
      KindsAre(w, w, accounts[k]);
    }
    HintsAnswer(accounts, q);
    FindsFirst(HasWorkspace(w), accounts);
    FirstOfSame(accounts, HasWorkspace(w), OfWorkspace(w), IdOf(FindFirst(HasWorkspace(w), accounts)));
  }

  /** Neither id given: a known id. */
  lemma KnownIdAnswer(accounts: seq<StoredAccount>, q: Query)
    requires NormalizeNonEmpty(q.chatgpt) == None && NormalizeNonEmpty(q.workspace) == None
    ensures ByKnownId(accounts, q, PickExistingAccountId(accounts, q))
  {
    hide NormalizeNonEmpty, PickByHints, ByKnownId;
    HintsAnswer(accounts, q);
  }
}
