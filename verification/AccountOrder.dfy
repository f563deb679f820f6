/** Ordering accounts: moves in a filtered view, sparse sort keys, and order by size group. */
module AccountOrder {
  import opened Text
  import opened Sequences

  datatype Account = Account(id: string, name: string, planType: Option<string>, priority: Option<int>, sort: int)

  predicate UniqueIds(accounts: seq<Account>) {
    forall i, j :: 0 <= i < j < |accounts| ==> accounts[i].id != accounts[j].id
  }

  // ------------------------------------------------- moving within a view

  datatype Direction = Up | Down

  datatype MoveResult =
    | NotListed
    | AlreadyFirst
    | AlreadyLast
    | TargetMissing
    | Reordered(accounts: seq<Account>)

  /** An index map built front to back keeps the last index of an id. */
  function LastIndexOf(accounts: seq<Account>, id: string): (r: Option<nat>)
    ensures r.Some? ==> r.value < |accounts| && accounts[r.value].id == id
    ensures r.Some? ==> forall k :: r.value < k < |accounts| ==> accounts[k].id != id
    ensures r.None? <==> forall k :: 0 <= k < |accounts| ==> accounts[k].id != id
  {
    if accounts == [] then None
    else
      var last := |accounts| - 1;
      if accounts[last].id == id then Some(last) else LastIndexOf(accounts[..last], id)
  }

  function FindIndex(accounts: seq<Account>, id: string): (r: Option<nat>)
    ensures r.Some? ==> r.value < |accounts| && accounts[r.value].id == id
    ensures r.Some? ==> forall k :: 0 <= k < r.value ==> accounts[k].id != id
    ensures r.None? <==> forall k :: 0 <= k < |accounts| ==> accounts[k].id != id
  {
    if accounts == [] then None
    else if accounts[0].id == id then Some(0)
    else match FindIndex(accounts[1..], id)
      case None => None
      case Some(k) => Some(k + 1)
  }

  function Without(accounts: seq<Account>, id: string): seq<Account> {
    Filter((item: Account) => item.id != id, accounts)
  }

  /** A view is given by the predicate its search text and filters amount to. */
  function Move(accounts: seq<Account>, view: Account -> bool, account: Account, direction: Direction): MoveResult {
    var filtered := Filter(view, accounts);
    match LastIndexOf(filtered, account.id)
    case None => NotListed
    case Some(index) =>
      if direction.Up? && index == 0 then AlreadyFirst
      else if direction.Down? && index + 1 >= |filtered| then AlreadyLast
      else
        var target := if direction.Up? then filtered[index - 1] else filtered[index + 1];
        var others := Without(accounts, account.id);
        match FindIndex(others, target.id)
        case None => TargetMissing
        case Some(anchor) =>
          var at := if direction.Up? then anchor else anchor + 1;
          Reordered(others[..at] + [account] + others[at..])
  }

  method HandleMoveAccount(accounts: seq<Account>, view: Account -> bool, account: Account, direction: Direction)
    returns (result: MoveResult)
    ensures result == Move(accounts, view, account, direction)
  {
    var filtered := Filter(view, accounts);
    var found := LastIndexOf(filtered, account.id);
    if found.None? {
      return NotListed;
    }
    var index: int := found.value;
    var targetIndex := if direction.Up? then index - 1 else index + 1;
    if targetIndex < 0 {
      return AlreadyFirst;
    }
    if targetIndex >= |filtered| {
      return AlreadyLast;
    }
    var reordered := Without(accounts, account.id);
    var anchor := FindIndex(reordered, filtered[targetIndex].id);
    if anchor.None? {
      return TargetMissing;
    }
    var at := if direction.Up? then anchor.value else anchor.value + 1;
    reordered := reordered[..at] + [account] + reordered[at..];
    return Reordered(reordered);
  }

  lemma Regroup(a: seq<Account>, x: Account, b: seq<Account>, y: Account, c: seq<Account>)
    ensures a + [x] + (b + [y] + c) == a + [x] + b + [y] + c
  {
  }

  /** Two neighbours of a view, with the hidden accounts between them. */
  lemma Neighbours(accounts: seq<Account>, view: Account -> bool, k: nat)
    returns (a: seq<Account>, b: seq<Account>, c: seq<Account>)
    requires k + 1 < |Filter(view, accounts)|
    ensures var f := Filter(view, accounts);
            && accounts == a + [f[k]] + b + [f[k + 1]] + c
            && view(f[k]) && view(f[k + 1])
            && Filter(view, a) == f[..k] && Filter(view, b) == [] && Filter(view, c) == f[k + 2..]
  {
    hide Filter;
    var f := Filter(view, accounts);
    var behind;
    a, behind := Locate(view, accounts, k);
    b, c := Locate(view, behind, 0);
    assert Filter(view, behind)[0] == f[k + 1];
    assert Filter(view, behind)[1..] == f[k + 2..];
    Regroup(a, f[k], b, f[k + 1], c);
  }

  lemma UniqueOf(a: seq<Account>, x: Account, b: seq<Account>, y: Account, c: seq<Account>)
    requires UniqueIds(a + [x] + b + [y] + c)
    ensures x.id != y.id
    ensures forall z :: z in a || z in b || z in c ==> z.id != x.id && z.id != y.id
  {
    var all := a + [x] + b + [y] + c;
    var n, m := |a|, |a| + 1 + |b|;
    assert all[n] == x && all[m] == y;
    forall z | z in a || z in b || z in c ensures z.id != x.id && z.id != y.id {
      if z in a {
        var i :| 0 <= i < |a| && a[i] == z;
        assert all[i] == z;
      } else if z in b {
        var i :| 0 <= i < |b| && b[i] == z;
        assert all[n + 1 + i] == z;
      } else {
        var i :| 0 <= i < |c| && c[i] == z;
        assert all[m + 1 + i] == z;
      }
    }
  }

  lemma WithoutOthers(accounts: seq<Account>, id: string)
    requires forall z :: z in accounts ==> z.id != id
    ensures Without(accounts, id) == accounts
  {
    FilterAll((item: Account) => item.id != id, accounts);
  }

  lemma WithoutAppend(a: seq<Account>, b: seq<Account>, id: string)
    ensures Without(a + b, id) == Without(a, id) + Without(b, id)
  {
    FilterAppend((item: Account) => item.id != id, a, b);
  }

  lemma FindIndexIs(accounts: seq<Account>, k: nat)
    requires k < |accounts| && forall i :: 0 <= i < k ==> accounts[i].id != accounts[k].id
    ensures FindIndex(accounts, accounts[k].id) == Some(k)
  {
  }

  lemma {:induction false} LastIndexIs(accounts: seq<Account>, k: nat)
    requires k < |accounts| && forall i :: k < i < |accounts| ==> accounts[i].id != accounts[k].id
    ensures LastIndexOf(accounts, accounts[k].id) == Some(k)
  {
    if k < |accounts| - 1 { LastIndexIs(accounts[..|accounts| - 1], k); }
  }

  lemma FilterUnique(accounts: seq<Account>, view: Account -> bool)
    requires UniqueIds(accounts)
    ensures UniqueIds(Filter(view, accounts))
  {
    var f := Filter(view, accounts);
    forall i, j | 0 <= i < j < |f| ensures f[i].id != f[j].id {
      var before, behind := Locate(view, accounts, i);
      assert Filter(view, behind)[j - i - 1] == f[j];
      FilterKept(view, behind);
      var m :| 0 <= m < |behind| && behind[m] == f[j];
      assert accounts[|before|] == f[i] && accounts[|before| + 1 + m] == f[j];
    }
  }

  /** Where a move puts the account, in both directions. */
  lemma MoveShape(accounts: seq<Account>, view: Account -> bool, k: nat)
    returns (a: seq<Account>, b: seq<Account>, c: seq<Account>)
    requires UniqueIds(accounts) && k + 1 < |Filter(view, accounts)|
    ensures var f := Filter(view, accounts);
            var x, y := f[k], f[k + 1];
            && accounts == a + [x] + b + [y] + c
            && view(x) && view(y)
            && Filter(view, a) == f[..k] && Filter(view, b) == [] && Filter(view, c) == f[k + 2..]
            && Move(accounts, view, y, Up) == Reordered(a + [y] + [x] + b + c)
            && Move(accounts, view, x, Down) == Reordered(a + b + [y] + [x] + c)
  {
    hide Filter, LastIndexOf, FindIndex, Without;
    var f := Filter(view, accounts);
    var x, y := f[k], f[k + 1];
    a, b, c := Neighbours(accounts, view, k);
    UniqueOf(a, x, b, y, c);
    FilterUnique(accounts, view);
    LastIndexIs(f, k);
    LastIndexIs(f, k + 1);
    WithoutTwo(a, x, b, y, c);
    var up, down := a + [x] + b + c, a + b + [y] + c;
    FindIndexIs(up, |a|);
    assert up[..|a|] + [y] + up[|a|..] == a + [y] + [x] + b + c;
    FindIndexIs(down, |a| + |b|);
    var at := |a| + |b| + 1;
    assert down[..at] + [x] + down[at..] == a + b + [y] + [x] + c;
  }

  lemma WithoutPieces(a: seq<Account>, x: Account, b: seq<Account>, y: Account, c: seq<Account>, id: string)
    requires forall z :: z in a || z in b || z in c ==> z.id != id
    ensures Without(a + [x] + b + [y] + c, id) == a + Without([x], id) + b + Without([y], id) + c
  {
    hide Without;
    WithoutAppend(a + [x] + b + [y], c, id);
    WithoutAppend(a + [x] + b, [y], id);
    WithoutAppend(a + [x], b, id);
    WithoutAppend(a, [x], id);
    WithoutOthers(a, id);
    WithoutOthers(b, id);
    WithoutOthers(c, id);
  }

  lemma WithoutOne(x: Account, id: string)
    ensures Without([x], id) == if x.id == id then [] else [x]
  {
    FilterOne((item: Account) => item.id != id, x);
  }

  lemma WithoutTwo(a: seq<Account>, x: Account, b: seq<Account>, y: Account, c: seq<Account>)
    requires x.id != y.id
    requires forall z :: z in a || z in b || z in c ==> z.id != x.id && z.id != y.id
    ensures Without(a + [x] + b + [y] + c, y.id) == a + [x] + b + c
    ensures Without(a + [x] + b + [y] + c, x.id) == a + b + [y] + c
  {
    hide Without;
    WithoutPieces(a, x, b, y, c, y.id);
    WithoutPieces(a, x, b, y, c, x.id);
    WithoutOne(x, x.id);
    WithoutOne(x, y.id);
    WithoutOne(y, x.id);
    WithoutOne(y, y.id);
    assert a + [] + b + [y] + c == a + b + [y] + c;
    assert a + [x] + b + [] + c == a + [x] + b + c;
  }

  /** The moved account jumps over exactly the accounts `over`, of which one is in the view. */
  lemma JumpOver(a: seq<Account>, over: seq<Account>, x: Account, c: seq<Account>, view: Account -> bool)
    ensures multiset(a + over + [x] + c) == multiset(a + [x] + over + c)
    ensures Filter(view, a + over + [x] + c)
              == Filter(view, a) + Filter(view, over) + Filter(view, [x]) + Filter(view, c)
    ensures Filter(view, a + [x] + over + c)
              == Filter(view, a) + Filter(view, [x]) + Filter(view, over) + Filter(view, c)
    ensures UniqueIds(a + over + [x] + c) ==> UniqueIds(a + [x] + over + c)
    ensures UniqueIds(a + [x] + over + c) ==> UniqueIds(a + over + [x] + c)
  {
    hide Filter, UniqueIds;
    FilterAppend(view, a + over + [x], c);
    FilterAppend(view, a + over, [x]);
    FilterAppend(view, a, over);
    FilterAppend(view, a + [x] + over, c);
    FilterAppend(view, a + [x], over);
    FilterAppend(view, a, [x]);
    UniqueIdsPermute(a + over + [x] + c, a + [x] + over + c);
    UniqueIdsPermute(a + [x] + over + c, a + over + [x] + c);
  }

  lemma UniqueIdsPermute(xs: seq<Account>, ys: seq<Account>)
    requires multiset(xs) == multiset(ys)
    ensures UniqueIds(xs) ==> UniqueIds(ys)
  {
    if UniqueIds(xs) {
      forall i, j | 0 <= i < j < |ys| ensures ys[i].id != ys[j].id {
        assert ys[i] in multiset(ys) && ys[j] in multiset(ys);
        assert ys[i] in xs && ys[j] in xs;
        var m :| 0 <= m < |xs| && xs[m] == ys[i];
        var n :| 0 <= n < |xs| && xs[n] == ys[j];
        if m == n { TwiceInMultiset(ys, i, j); OnceInMultiset(xs, m); }
      }
    }
  }

  lemma TwiceInMultiset<T>(xs: seq<T>, i: nat, j: nat)
    requires i < j < |xs| && xs[i] == xs[j]
    ensures multiset(xs)[xs[i]] >= 2
  {
    assert xs == xs[..i] + [xs[i]] + xs[i + 1..j] + [xs[j]] + xs[j + 1..];
  }

  lemma OnceInMultiset(xs: seq<Account>, i: nat)
    requires i < |xs| && UniqueIds(xs)
    ensures multiset(xs)[xs[i]] == 1
  {
    assert xs == xs[..i] + [xs[i]] + xs[i + 1..];
    forall k | 0 <= k < |xs| && k != i ensures xs[k] != xs[i] {
      assert xs[k].id != xs[i].id;
    }
    assert xs[i] !in xs[..i] && xs[i] !in xs[i + 1..];
  }

  lemma WithoutCommutes(a: seq<Account>, over: seq<Account>, x: Account, c: seq<Account>)
    ensures Without(a + over + [x] + c, x.id) == Without(a + [x] + over + c, x.id)
  {
    hide Without;
    WithoutAppend(a + over + [x], c, x.id);
    WithoutAppend(a + over, [x], x.id);
    WithoutAppend(a, over, x.id);
    WithoutAppend(a + [x] + over, c, x.id);
    WithoutAppend(a + [x], over, x.id);
    WithoutAppend(a, [x], x.id);
    WithoutOne(x, x.id);
  }

  /** `later` is `earlier` with the account moved one place within the view. */
  ghost predicate MovedInView(earlier: seq<Account>, later: seq<Account>, view: Account -> bool, account: Account,
                              swapped: seq<Account>)
  {
    && multiset(later) == multiset(earlier)
    && UniqueIds(later)
    && Without(later, account.id) == Without(earlier, account.id)
    && Filter(view, later) == swapped
  }

  lemma SwapSlices(f: seq<Account>, k: nat)
    requires k + 1 < |f|
    ensures f[k := f[k + 1]][k + 1 := f[k]] == f[..k] + [f[k + 1]] + [f[k]] + f[k + 2..]
  {
  }

  lemma JumpMoves(a: seq<Account>, over: seq<Account>, x: Account, c: seq<Account>, view: Account -> bool)
    requires UniqueIds(a + over + [x] + c) || UniqueIds(a + [x] + over + c)
    ensures MovedInView(a + over + [x] + c, a + [x] + over + c, view, x,
                        Filter(view, a) + Filter(view, [x]) + Filter(view, over) + Filter(view, c))
    ensures MovedInView(a + [x] + over + c, a + over + [x] + c, view, x,
                        Filter(view, a) + Filter(view, over) + Filter(view, [x]) + Filter(view, c))
  {
    hide Filter, Without, UniqueIds;
    JumpOver(a, over, x, c, view);
    WithoutCommutes(a, over, x, c);
  }

  lemma MoveUpSwaps(accounts: seq<Account>, view: Account -> bool, k: nat)
    requires UniqueIds(accounts) && k + 1 < |Filter(view, accounts)|
    ensures var f := Filter(view, accounts);
            var r := Move(accounts, view, f[k + 1], Up);
            r.Reordered? && MovedInView(accounts, r.accounts, view, f[k + 1], f[..k] + [f[k + 1]] + [f[k]] + f[k + 2..])
  {
    hide Filter, Move, UniqueIds, MovedInView;
    var f := Filter(view, accounts);
    var x, y := f[k], f[k + 1];
    var a, b, c := MoveShape(accounts, view, k);
    var over := [x] + b;
    assert accounts == a + over + [y] + c;
    assert a + [y] + [x] + b + c == a + [y] + over + c;
    JumpMoves(a, over, y, c, view);
    FilterAppend(view, [x], b);
    FilterOne(view, x);
    FilterOne(view, y);
    assert Filter(view, over) == [x];
  }

  lemma MoveDownSwaps(accounts: seq<Account>, view: Account -> bool, k: nat)
    requires UniqueIds(accounts) && k + 1 < |Filter(view, accounts)|
    ensures var f := Filter(view, accounts);
            var r := Move(accounts, view, f[k], Down);
            r.Reordered? && MovedInView(accounts, r.accounts, view, f[k], f[..k] + [f[k + 1]] + [f[k]] + f[k + 2..])
  {
    hide Filter, Move, UniqueIds, MovedInView;
    var f := Filter(view, accounts);
    var x, y := f[k], f[k + 1];
    var a, b, c := MoveShape(accounts, view, k);
    var over := b + [y];
    assert accounts == a + [x] + over + c;
    assert a + b + [y] + [x] + c == a + over + [x] + c;
    JumpMoves(a, over, x, c, view);
    FilterAppend(view, b, [y]);
    FilterOne(view, x);
    FilterOne(view, y);
    assert Filter(view, over) == [y];
  }

  /**
   * A move one place up or down in any view: the full list is permuted, all other accounts keep
   * their relative order, and the view changes by exactly one swap of neighbours. Here `k` is the
   * upper of the two places: its account moves down, or the next one moves up.
   */
  lemma MoveSwapsNeighbours(accounts: seq<Account>, view: Account -> bool, k: nat, direction: Direction)
    requires UniqueIds(accounts) && k + 1 < |Filter(view, accounts)|
    ensures var f := Filter(view, accounts);
            var account := if direction.Up? then f[k + 1] else f[k];
            var r := Move(accounts, view, account, direction);
            r.Reordered? && MovedInView(accounts, r.accounts, view, account, f[k := f[k + 1]][k + 1 := f[k]])
  {
    hide Filter, Move, UniqueIds, MovedInView;
    SwapSlices(Filter(view, accounts), k);
    if direction.Up? {
      MoveUpSwaps(accounts, view, k);
    } else {
      MoveDownSwaps(accounts, view, k);
    }
  }

  /** At the ends of the view, and outside it, nothing is moved; and the target is never missing. */
  lemma MoveRefused(accounts: seq<Account>, view: Account -> bool, account: Account)
    requires UniqueIds(accounts)
    ensures var f := Filter(view, accounts);
            var up, down := Move(accounts, view, account, Up), Move(accounts, view, account, Down);
            && (up == NotListed <==> forall k :: 0 <= k < |f| ==> f[k].id != account.id)
            && (up == AlreadyFirst <==> f != [] && f[0].id == account.id)
            && (down == AlreadyLast <==> f != [] && f[|f| - 1].id == account.id)
            && up != TargetMissing && down != TargetMissing
  {
    hide Filter, Without, LastIndexOf, FindIndex;
    var f := Filter(view, accounts);
    FilterUnique(accounts, view);
    match LastIndexOf(f, account.id)
    case None =>
    case Some(n) =>
      if n > 0 { TargetRemains(accounts, view, n, n - 1, account.id); }
      if n + 1 < |f| { TargetRemains(accounts, view, n, n + 1, account.id); }
  }

  lemma TargetRemains(accounts: seq<Account>, view: Account -> bool, n: nat, m: nat, id: string)
    requires UniqueIds(accounts) && n < |Filter(view, accounts)| && m < |Filter(view, accounts)| && n != m
    requires Filter(view, accounts)[n].id == id
    ensures FindIndex(Without(accounts, id), Filter(view, accounts)[m].id).Some?
  {
    var target := Filter(view, accounts)[m];
    FilterUnique(accounts, view);
    FilterMember(view, accounts, target);
    FilterMember((item: Account) => item.id != id, accounts, target);
    assert target in Without(accounts, id);
  }

  /** The account right behind this one in the full list, as anyone can see before moving. */
  predicate Adjacent(accounts: seq<Account>, x: Account, y: Account) {
    exists k :: 0 <= k < |accounts| - 1 && accounts[k] == x && accounts[k + 1] == y
  }

  /**
   * Up and then down again: the view is always restored, and the full list is restored exactly
   * when no hidden account lay between the two places.
   */
  lemma UpThenDown(accounts: seq<Account>, view: Account -> bool, k: nat)
    requires UniqueIds(accounts) && k + 1 < |Filter(view, accounts)|
    ensures var f := Filter(view, accounts);
            var up := Move(accounts, view, f[k + 1], Up);
            up.Reordered? &&
            var down := Move(up.accounts, view, f[k + 1], Down);
            && down.Reordered?
            && Filter(view, down.accounts) == f
            && (down.accounts == accounts <==> Adjacent(accounts, f[k], f[k + 1]))
  {
    hide Filter, Without, Move, UniqueIds, Adjacent;
    var f := Filter(view, accounts);
    var x, y := f[k], f[k + 1];
    var a, b, c := MoveShape(accounts, view, k);
    MoveSwapsNeighbours(accounts, view, k, Up);
    var once := Move(accounts, view, y, Up).accounts;
    var g := Filter(view, once);
    SwapTwice(f, k);
    MoveSwapsNeighbours(once, view, k, Down);
    DownLands(once, view, k, a, b + c);
    CloserByHidden(a, x, b, y, c);
  }

  /** With one hidden account between them, up and down again changes the full list. */
  lemma UpThenDownCanDiffer(x: Account, hidden: Account, y: Account, view: Account -> bool)
    requires UniqueIds([x, hidden, y]) && view(x) && !view(hidden) && view(y)
    ensures var accounts := [x, hidden, y];
            var up := Move(accounts, view, y, Up);
            up.Reordered? &&
            var down := Move(up.accounts, view, y, Down);
            down.Reordered? && down.accounts != accounts
  {
    hide Move, UniqueIds;
    var accounts := [x, hidden, y];
    FilterThree(x, hidden, y, view);
    UpThenDown(accounts, view, 0);
    NotAdjacent(x, hidden, y);
  }

  lemma FilterThree(x: Account, hidden: Account, y: Account, view: Account -> bool)
    requires view(x) && !view(hidden) && view(y)
    ensures Filter(view, [x, hidden, y]) == [x, y]
  {
    hide Filter;
    assert [x, hidden, y] == [x] + [hidden] + [y];
    FilterAppend(view, [x] + [hidden], [y]);
    FilterAppend(view, [x], [hidden]);
    FilterOne(view, x);
    FilterOne(view, hidden);
    FilterOne(view, y);
  }

  lemma NotAdjacent(x: Account, hidden: Account, y: Account)
    requires UniqueIds([x, hidden, y])
    ensures !Adjacent([x, hidden, y], x, y)
  {
    var accounts := [x, hidden, y];
    assert accounts[0].id != accounts[1].id && accounts[1].id != accounts[2].id;
  }

  lemma SwapTwice(f: seq<Account>, k: nat)
    requires k + 1 < |f|
    ensures var g := f[k := f[k + 1]][k + 1 := f[k]];
            |g| == |f| && g[k] == f[k + 1] && g[k + 1] == f[k] && g[k := g[k + 1]][k + 1 := g[k]] == f
  {
  }

  /** Moving down over the account right behind. */
  lemma DownLands(accounts: seq<Account>, view: Account -> bool, k: nat, a: seq<Account>, d: seq<Account>)
    requires UniqueIds(accounts) && k + 1 < |Filter(view, accounts)|
    requires accounts == a + [Filter(view, accounts)[k]] + [Filter(view, accounts)[k + 1]] + d
    ensures var g := Filter(view, accounts);
            Move(accounts, view, g[k], Down) == Reordered(a + [g[k + 1]] + [g[k]] + d)
  {
    hide Filter, Move, UniqueIds;
    var x, y := Filter(view, accounts)[k], Filter(view, accounts)[k + 1];
    var a', b', c' := MoveShape(accounts, view, k);
    assert accounts == a + [x] + ([y] + d) == a' + [x] + (b' + [y] + c');
    SameCut(accounts, a, x, [y] + d, a', b' + [y] + c');
    FirstCut(accounts, a, x, y, d, b', c');
    assert a + b' + [y] + [x] + c' == a + [y] + [x] + d;
  }

  lemma FirstCut(all: seq<Account>, a: seq<Account>, x: Account, y: Account, d: seq<Account>, b: seq<Account>,
                 c: seq<Account>)
    requires UniqueIds(all) && all == a + [x] + ([y] + d) && [y] + d == b + [y] + c
    ensures b == [] && c == d
  {
    var n := |a| + 1;
    assert all[n..] == [y] + d;
    assert all[n] == y && all[n + |b|] == (b + [y] + c)[|b|] == y;
    assert |b| == 0;
    assert c == (b + [y] + c)[1..] == d;
  }

  lemma SameCut(all: seq<Account>, a: seq<Account>, x: Account, c: seq<Account>, a': seq<Account>, c': seq<Account>)
    requires UniqueIds(all) && all == a + [x] + c == a' + [x] + c'
    ensures a == a' && c == c'
  {
    assert all[|a|] == x == all[|a'|];
    assert |a| == |a'|;
    assert a == all[..|a|] == a';
    assert c == all[|a| + 1..] == c';
  }

  lemma CloserByHidden(a: seq<Account>, x: Account, b: seq<Account>, y: Account, c: seq<Account>)
    requires UniqueIds(a + [x] + b + [y] + c)
    ensures a + [x] + [y] + (b + c) == a + [x] + b + [y] + c <==> b == []
    ensures Adjacent(a + [x] + b + [y] + c, x, y) <==> b == []
  {
    var all := a + [x] + b + [y] + c;
    assert all[|a|] == x && all[|a| + 1 + |b|] == y;
    if b != [] {
      assert all[|a| + 1] == b[0];
      assert (a + [x] + [y] + (b + c))[|a| + 1] == y;
      forall k | 0 <= k < |all| - 1 && all[k] == x ensures all[k + 1] != y {
        assert all[k].id == all[|a|].id;
        assert all[k + 1].id != all[|a| + 1 + |b|].id;
      }
    } else {
      assert a + [x] + [] + [y] + c == a + [x] + [y] + ([] + c);
    }
  }
}
