/** A fingerprint of a directory tree: a worklist over directories, a sort, and a join. */
module Fingerprint {
  import opened Text

  /** `readable` is false for a directory that cannot be listed and a file without metadata. */
  datatype Node =
    | File(name: string, readable: bool, length: nat, modified: nat)
    | Dir(name: string, readable: bool, children: seq<Node>)

  function Under(prefix: string, name: string): string {
    if prefix == "" then name else prefix + "/" + name
  }

  /** One line per file: path with forward slashes, size, and time. */
  function Item(path: string, file: Node): string
    requires file.File?
  {
    ReplaceChar(path, '\\', "/") + ":" + Decimal(file.length) + ":" + Decimal(file.modified)
  }

  /** The items of a subtree, depth first. */
  function ItemsOf(prefix: string, node: Node): seq<string>
    decreases node, 1
  {
    match node
    case File(name, readable, _, _) => if readable then [Item(Under(prefix, name), node)] else []
    case Dir(name, readable, children) => if readable then Items(Under(prefix, name), children) else []
  }

  function Items(prefix: string, nodes: seq<Node>): seq<string>
    decreases nodes, 0
  {
    if nodes == [] then [] else ItemsOf(prefix, nodes[0]) + Items(prefix, nodes[1..])
  }

  // ---------------------------------------------------------------- sorting

  predicate LexLe(a: string, b: string) {
    a == "" || (b != "" && (a[0] < b[0] || (a[0] == b[0] && LexLe(a[1..], b[1..]))))
  }

  lemma {:induction false} LexTotal(a: string, b: string)
    ensures LexLe(a, b) || LexLe(b, a)
    ensures LexLe(a, b) && LexLe(b, a) ==> a == b
  {
    if a != "" && b != "" && a[0] == b[0] {
      LexTotal(a[1..], b[1..]);
      assert a == [a[0]] + a[1..] && b == [b[0]] + b[1..];
    }
  }

  lemma {:induction false} LexTransitive(a: string, b: string, c: string)
    requires LexLe(a, b) && LexLe(b, c)
    ensures LexLe(a, c)
  {
    if a != "" && b != "" && c != "" && a[0] == b[0] == c[0] { LexTransitive(a[1..], b[1..], c[1..]); }
  }

  predicate Sorted(items: seq<string>) {
    forall i, j :: 0 <= i < j < |items| ==> LexLe(items[i], items[j])
  }

  function Insert(item: string, items: seq<string>): (r: seq<string>)
    ensures multiset(r) == multiset(items) + multiset{item}
  {
    if items == [] || LexLe(item, items[0]) then [item] + items
    else
      assert items == [items[0]] + items[1..];
      [items[0]] + Insert(item, items[1..])
  }

  function Sort(items: seq<string>): (r: seq<string>)
    ensures multiset(r) == multiset(items)
  {
    if items == [] then []
    else
      assert items == [items[0]] + items[1..];
      Insert(items[0], Sort(items[1..]))
  }

  lemma {:induction false} InsertSorted(item: string, items: seq<string>)
    requires Sorted(items)
    ensures Sorted(Insert(item, items))
  {
    if items == [] {
    } else if LexLe(item, items[0]) {
      forall k | 0 <= k < |items| ensures LexLe(item, items[k]) {
        if k > 0 { LexTransitive(item, items[0], items[k]); }
      }
    } else {
      InsertSorted(item, items[1..]);
      LexTotal(item, items[0]);
      var rest := Insert(item, items[1..]);
      forall k | 0 <= k < |rest| ensures LexLe(items[0], rest[k]) {
        assert rest[k] in multiset(rest);
        if rest[k] != item {
          assert rest[k] in multiset(items[1..]);
          assert rest[k] in items[1..];
        }
      }
    }
  }

  lemma {:induction false} SortSorted(items: seq<string>)
    ensures Sorted(Sort(items))
  {
    if items != [] {
      SortSorted(items[1..]);
      InsertSorted(items[0], Sort(items[1..]));
    }
  }

  lemma {:induction false} SortedUnique(a: seq<string>, b: seq<string>)
    requires Sorted(a) && Sorted(b) && multiset(a) == multiset(b)
    ensures a == b
  {
    hide Sorted, LexLe;
    assert |multiset(a)| == |a| && |multiset(b)| == |b|;
    if a != [] {
      SameFirst(a, b);
      SameFirst(b, a);
      LexTotal(a[0], b[0]);
      TailOf(a);
      TailOf(b);
      SortedUnique(a[1..], b[1..]);
    }
  }

  lemma TailOf(a: seq<string>)
    requires a != []
    ensures a == [a[0]] + a[1..] && multiset(a[1..]) == multiset(a) - multiset{a[0]}
    ensures Sorted(a) ==> Sorted(a[1..])
  {
    assert a == [a[0]] + a[1..];
  }

  lemma SameFirst(a: seq<string>, b: seq<string>)
    requires Sorted(b) && multiset(a) == multiset(b) && a != [] && b != []
    ensures LexLe(b[0], a[0])
  {
    assert a[0] in multiset(b);
    var k :| 0 <= k < |b| && b[k] == a[0];
    LexTotal(b[0], b[0]);
  }

  /** The sorted sequence depends on the items only, not on their order. */
  lemma SortIgnoresOrder(a: seq<string>, b: seq<string>)
    requires multiset(a) == multiset(b)
    ensures Sort(a) == Sort(b)
  {
    hide Sort, Sorted;
    SortSorted(a);
    SortSorted(b);
    SortedUnique(Sort(a), Sort(b));
  }

  // --------------------------------------------------------------- worklist

  function Joined(items: seq<string>): string {
    if items == [] then "empty" else Join(Sort(items), "|")
  }

  /** The fingerprint of a root directory. */
  function FingerprintOf(readable: bool, children: seq<Node>): string {
    Joined(if readable then Items("", children) else [])
  }

  /** The string joins exactly the files' items, each as often as it occurs, in sorted order. */
  ghost predicate Fingerprints(r: string, found: seq<string>) {
    exists items ::
      multiset(items) == multiset(found) && Sorted(items) && r == if items == [] then "empty" else Join(items, "|")
  }

  lemma JoinedFingerprints(found: seq<string>)
    ensures Fingerprints(Joined(found), found)
  {
    hide Sort, Sorted, Join;
    var items := Sort(found);
    SortSorted(found);
    assert |multiset(items)| == |items| && |multiset(found)| == |found|;
    assert multiset(items) == multiset(found);
  }

  /** A directory waiting to be listed: its path below the root, and what a listing would give. */
  datatype Pending = Pending(path: string, readable: bool, children: seq<Node>)

  function PendingItems(p: Pending): seq<string> {
    if p.readable then Items(p.path, p.children) else []
  }

  function AllPending(pending: seq<Pending>): multiset<string> {
    if pending == [] then multiset{} else multiset(PendingItems(pending[0])) + AllPending(pending[1..])
  }

  function Size(node: Node): nat {
    match node
    case File(_, _, _, _) => 1
    case Dir(_, _, children) => 1 + SizeAll(children)
  }

  function SizeAll(nodes: seq<Node>): nat {
    if nodes == [] then 0 else Size(nodes[0]) + SizeAll(nodes[1..])
  }

  function PendingSize(pending: seq<Pending>): nat {
    if pending == [] then 0 else 1 + SizeAll(pending[0].children) + PendingSize(pending[1..])
  }

  lemma {:induction false} PendingSnoc(pending: seq<Pending>, p: Pending)
    ensures AllPending(pending + [p]) == AllPending(pending) + multiset(PendingItems(p))
    ensures PendingSize(pending + [p]) == PendingSize(pending) + 1 + SizeAll(p.children)
  {
    if pending == [] {
      assert pending + [p] == [p];
      assert [p][1..] == [];
    } else {
      assert (pending + [p])[1..] == pending[1..] + [p];
      PendingSnoc(pending[1..], p);
    }
  }

  lemma {:induction false} ItemsSnoc(path: string, nodes: seq<Node>, k: nat)
    requires k < |nodes|
    ensures multiset(Items(path, nodes[k..]))
              == multiset(ItemsOf(path, nodes[k])) + multiset(Items(path, nodes[k + 1..]))
    ensures SizeAll(nodes[k..]) == Size(nodes[k]) + SizeAll(nodes[k + 1..])
  {
    assert nodes[k..][1..] == nodes[k + 1..];
  }

  lemma JoinedIgnoresOrder(a: seq<string>, b: seq<string>)
    requires multiset(a) == multiset(b)
    ensures Joined(a) == Joined(b)
  {
    hide Sort;
    assert |multiset(a)| == |a| && |multiset(b)| == |b|;
    SortIgnoresOrder(a, b);
  }

  /** One listing: directories join the queue, files give items, and nothing gets lost. */
  method ListDirectory(dir: Pending, pending: seq<Pending>, items: seq<string>)
    returns (pending': seq<Pending>, items': seq<string>)
    requires dir.readable
    ensures multiset(items') + AllPending(pending')
         == multiset(items) + AllPending(pending) + multiset(Items(dir.path, dir.children))
    ensures PendingSize(pending') <= PendingSize(pending) + SizeAll(dir.children)
  {
    hide Items, Item, AllPending, PendingSize, SizeAll;
    pending', items' := pending, items;
    assert dir.children[0..] == dir.children;
    for k := 0 to |dir.children|
      invariant multiset(items') + AllPending(pending') + multiset(Items(dir.path, dir.children[k..]))
             == multiset(items) + AllPending(pending) + multiset(Items(dir.path, dir.children))
      invariant PendingSize(pending') + SizeAll(dir.children[k..]) <= PendingSize(pending) + SizeAll(dir.children)
    {
      var entry := dir.children[k];
      var path := Under(dir.path, entry.name);
      ItemsSnoc(dir.path, dir.children, k);
      if entry.Dir? {
        PendingSnoc(pending', Pending(path, entry.readable, entry.children));
        pending' := pending' + [Pending(path, entry.readable, entry.children)];
        continue;
      }
      if !entry.readable {
        continue;
      }
      items' := items' + [Item(path, entry)];
    }
    assert dir.children[|dir.children|..] == [];
    NoItems(dir.path);
  }

  lemma NoItems(path: string)
    ensures Items(path, []) == []
  {
  }

  method FingerprintTree(readable: bool, children: seq<Node>) returns (r: string)
    ensures r == FingerprintOf(readable, children)
    ensures Fingerprints(r, if readable then Items("", children) else [])
  {
    hide Items, Sort, SizeAll, Fingerprints;
    var root := Pending("", readable, children);
    var pending, items := [root], [];
    assert pending[1..] == [];
    while pending != []
      invariant multiset(items) + AllPending(pending) == multiset(PendingItems(root))
      decreases PendingSize(pending)
    {
      var dir := pending[0];
      pending := pending[1..];
      if !dir.readable {
        continue;
      }
      pending, items := ListDirectory(dir, pending, items);
    }
    JoinedIgnoresOrder(items, PendingItems(root));
    JoinedFingerprints(PendingItems(root));
    r := if items == [] then "empty" else Join(Sort(items), "|");
  }

  // ------------------------------------------------- the order of listings

  /** `b` is `a` with the listing of every directory in some other order. */
  ghost predicate Reordered(a: Node, b: Node)
    decreases a, 1
  {
    match a
    case File(_, _, _, _) => b == a
    case Dir(name, readable, children) =>
      b.Dir? && b.name == name && b.readable == readable && ReorderedAll(children, b.children)
  }

  ghost predicate ReorderedAll(a: seq<Node>, b: seq<Node>)
    decreases a, 0
  {
    if a == [] then b == []
    else exists k :: 0 <= k < |b| && Reordered(a[0], b[k]) && ReorderedAll(a[1..], b[..k] + b[k + 1..])
  }

  lemma {:induction false} ItemsAppend(path: string, a: seq<Node>, b: seq<Node>)
    ensures Items(path, a + b) == Items(path, a) + Items(path, b)
  {
    hide ItemsOf;
    if a == [] {
      assert a + b == b;
    } else {
      assert (a + b)[1..] == a[1..] + b;
      ItemsAppend(path, a[1..], b);
    }
  }

  lemma {:induction false} ReorderedItemsOf(path: string, a: Node, b: Node)
    requires Reordered(a, b)
    ensures multiset(ItemsOf(path, a)) == multiset(ItemsOf(path, b))
    decreases a, 1
  {
    if a.Dir? && a.readable {
      ReorderedItems(Under(path, a.name), a.children, b.children);
    }
  }

  lemma {:induction false} ReorderedItems(path: string, a: seq<Node>, b: seq<Node>)
    requires ReorderedAll(a, b)
    ensures multiset(Items(path, a)) == multiset(Items(path, b))
    decreases a, 0
  {
    if a != [] {
      var k :| 0 <= k < |b| && Reordered(a[0], b[k]) && ReorderedAll(a[1..], b[..k] + b[k + 1..]);
      ReorderedItemsOf(path, a[0], b[k]);
      ReorderedItems(path, a[1..], b[..k] + b[k + 1..]);
      MovedToFront(path, b, k);
    }
  }

  lemma MovedToFront(path: string, b: seq<Node>, k: nat)
    requires k < |b|
    ensures multiset(Items(path, b)) == multiset(ItemsOf(path, b[k])) + multiset(Items(path, b[..k] + b[k + 1..]))
  {
    hide ItemsOf;
    assert b == b[..k] + b[k..] && b[k..][1..] == b[k + 1..];
    ItemsAppend(path, b[..k], b[k..]);
    ItemsAppend(path, b[..k], b[k + 1..]);
  }

  /** However the operating system orders each listing, the fingerprint is the same. */
  lemma FingerprintIgnoresListingOrder(readable: bool, a: seq<Node>, b: seq<Node>)
    requires ReorderedAll(a, b)
    ensures FingerprintOf(readable, a) == FingerprintOf(readable, b)
  {
    hide Joined;
    ReorderedItems("", a, b);
    if readable { JoinedIgnoresOrder(Items("", a), Items("", b)); }
  }

  // ------------------------------------------------- what a fingerprint shows

  /** The file is found below these nodes by these names, through directories that can be listed. */
  ghost predicate FoundAt(nodes: seq<Node>, path: seq<string>, file: Node)
    decreases |path|
  {
    && file.File? && path != []
    && if |path| == 1 then file in nodes && file.name == path[0]
       else exists d :: d in nodes && d.Dir? && d.readable && d.name == path[0] && FoundAt(d.children, path[1..], file)
  }

  /** A path below a prefix. */
  function Below(prefix: string, path: seq<string>): string
    requires path != []
    decreases |path|
  {
    if |path| == 1 then Under(prefix, path[0]) else Below(Under(prefix, path[0]), path[1..])
  }

  lemma {:induction false} ItemsHave(prefix: string, nodes: seq<Node>, node: Node, item: string)
    ensures node in nodes && item in ItemsOf(prefix, node) ==> item in Items(prefix, nodes)
    decreases nodes
  {
    hide ItemsOf;
    if nodes != [] && node in nodes && item in ItemsOf(prefix, node) {
      if node != nodes[0] { ItemsHave(prefix, nodes[1..], node, item); }
    }
  }

  lemma {:induction false} ItemsFrom(prefix: string, nodes: seq<Node>, item: string) returns (node: Node)
    requires item in Items(prefix, nodes)
    ensures node in nodes && item in ItemsOf(prefix, node)
    decreases nodes
  {
    hide ItemsOf;
    if item in ItemsOf(prefix, nodes[0]) {
      node := nodes[0];
    } else {
      node := ItemsFrom(prefix, nodes[1..], item);
    }
  }

  /** Every file with metadata that can be found has its item. */
  lemma {:induction false} FoundHasItem(prefix: string, nodes: seq<Node>, path: seq<string>, file: Node)
    requires FoundAt(nodes, path, file) && file.readable
    ensures Item(Below(prefix, path), file) in Items(prefix, nodes)
    decreases |path|
  {
    hide Item;
    if |path| == 1 {
      ItemsHave(prefix, nodes, file, Item(Below(prefix, path), file));
    } else {
      var d :| d in nodes && d.Dir? && d.readable && d.name == path[0] && FoundAt(d.children, path[1..], file);
      FoundHasItem(Under(prefix, d.name), d.children, path[1..], file);
      ItemsHave(prefix, nodes, d, Item(Below(prefix, path), file));
    }
  }

  /** And every item is that of a file with metadata that can be found. */
  lemma {:induction false} ItemIsFound(prefix: string, nodes: seq<Node>, item: string)
    returns (path: seq<string>, file: Node)
    requires item in Items(prefix, nodes)
    ensures FoundAt(nodes, path, file) && file.readable && item == Item(Below(prefix, path), file)
    decreases nodes
  {
    hide Item;
    var node := ItemsFrom(prefix, nodes, item);
    if node.File? {
      path, file := [node.name], node;
    } else {
      var rest;
      rest, file := ItemIsFound(Under(prefix, node.name), node.children, item);
      path := [node.name] + rest;
      assert path[1..] == rest;
    }
  }

  /** From the root, the path is the names joined by slashes. */
  lemma {:induction false} BelowIsJoined(prefix: string, path: seq<string>)
    requires path != [] && prefix != ""
    ensures Below(prefix, path) == prefix + "/" + Join(path, "/")
    decreases |path|
  {
    if |path| > 1 { BelowIsJoined(Under(prefix, path[0]), path[1..]); }
  }

  /**
   * The items are exactly those of the files that can be reached and have metadata, each under its
   * names joined by slashes. (File names are not empty.)
   */
  lemma ItemsExactly(nodes: seq<Node>, item: string)
    requires forall path, file :: FoundAt(nodes, path, file) ==> path[0] != ""
    ensures item in Items("", nodes) <==>
              exists path, file :: FoundAt(nodes, path, file) && file.readable && item == Item(Join(path, "/"), file)
  {
    hide Item, Items, Join;
    forall path, file | FoundAt(nodes, path, file) ensures Below("", path) == Join(path, "/") {
      BelowRoot(path);
    }
    if item in Items("", nodes) {
      var path, file := ItemIsFound("", nodes, item);
    }
    if path, file :| FoundAt(nodes, path, file) && file.readable && item == Item(Join(path, "/"), file) {
      FoundHasItem("", nodes, path, file);
    }
  }

  lemma BelowRoot(path: seq<string>)
    requires path != [] && path[0] != ""
    ensures Below("", path) == Join(path, "/")
  {
    if |path| > 1 { BelowIsJoined(path[0], path[1..]); }
  }

  // ----------------------------------------------------- changes are noticed

  lemma DigitsAreNot(s: string, c: char)
    requires AllDigits(s) && !IsDigit(c)
    ensures c !in s
  {
  }

  /** The text behind the last colon is what was put there. */
  lemma LastField(a: string, x: string, b: string, y: string)
    requires ':' !in x && ':' !in y && a + ":" + x == b + ":" + y
    ensures a == b && x == y
  {
    var s := a + ":" + x;
    assert s[|a|] == ':' && s[|b|] == ':';
    forall k | |a| < k < |s| ensures s[k] != ':' { assert s[k] == x[k - |a| - 1]; }
    forall k | |b| < k < |s| ensures s[k] != ':' { assert s[k] == y[k - |b| - 1]; }
    assert |a| == |b|;
    assert a == s[..|a|] && b == s[..|b|];
    assert x == s[|a| + 1..] && y == s[|b| + 1..];
  }

  lemma DecimalUnique(a: nat, b: nat)
    requires Decimal(a) == Decimal(b)
    ensures a == b
  {
    DecimalRoundTrip(a);
    DecimalRoundTrip(b);
  }

  /** An item tells path (up to the kind of slash), size and time. */
  lemma ItemTells(p: string, f: Node, q: string, g: Node)
    requires f.File? && g.File?
    ensures Item(p, f) == Item(q, g) <==>
              ReplaceChar(p, '\\', "/") == ReplaceChar(q, '\\', "/") && f.length == g.length && f.modified == g.modified
  {
    hide ReplaceChar, Decimal;
    var a, b := ReplaceChar(p, '\\', "/"), ReplaceChar(q, '\\', "/");
    DecimalRoundTrip(f.length);
    DecimalRoundTrip(g.length);
    DecimalRoundTrip(f.modified);
    DecimalRoundTrip(g.modified);
    DigitsAreNot(Decimal(f.length), ':');
    DigitsAreNot(Decimal(g.length), ':');
    DigitsAreNot(Decimal(f.modified), ':');
    DigitsAreNot(Decimal(g.modified), ':');
    if Item(p, f) == Item(q, g) {
      LastField(a + ":" + Decimal(f.length), Decimal(f.modified), b + ":" + Decimal(g.length), Decimal(g.modified));
      LastField(a, Decimal(f.length), b, Decimal(g.length));
      DecimalUnique(f.length, g.length);
      DecimalUnique(f.modified, g.modified);
    }
  }

  predicate Barless(items: seq<string>) {
    forall k :: 0 <= k < |items| ==> '|' !in items[k] && ':' in items[k]
  }

  lemma {:induction false} JoinHasColon(items: seq<string>)
    requires Barless(items) && items != []
    ensures ':' in Join(items, "|")
  {
    if |items| > 1 {
      assert Join(items, "|") == items[0] + ("|" + Join(items[1..], "|"));
    }
    assert ':' in items[0];
  }

  /** Joined items come apart again if none of them holds a bar. */
  lemma JoinUnique(a: seq<string>, b: seq<string>)
    requires a != [] && b != [] && Barless(a) && Barless(b) && Join(a, "|") == Join(b, "|")
    ensures a == b
  {
    SplitOfJoin(a, '|');
    SplitOfJoin(b, '|');
  }

  lemma SortedBarless(items: seq<string>)
    requires Barless(items)
    ensures Barless(Sort(items)) && (Sort(items) == [] <==> items == [])
  {
    hide Sort;
    var sorted := Sort(items);
    assert |multiset(sorted)| == |sorted| && |multiset(items)| == |items|;
    forall k | 0 <= k < |sorted| ensures '|' !in sorted[k] && ':' in sorted[k] {
      assert sorted[k] in multiset(sorted);
      assert sorted[k] in items;
    }
  }

  lemma EmptyHasNoColon()
    ensures ':' !in "empty"
  {
  }

  /** Two trees without bars in their file names get one fingerprint exactly if they have the same items. */
  lemma FingerprintTells(a: seq<Node>, b: seq<Node>)
    requires Barless(Items("", a)) && Barless(Items("", b))
    ensures FingerprintOf(true, a) == FingerprintOf(true, b) <==> multiset(Items("", a)) == multiset(Items("", b))
  {
    hide Items, Sort, Join, Barless;
    var x, y := Items("", a), Items("", b);
    SortedBarless(x);
    SortedBarless(y);
    EmptyHasNoColon();
    if x != [] { JoinHasColon(Sort(x)); }
    if y != [] { JoinHasColon(Sort(y)); }
    if FingerprintOf(true, a) == FingerprintOf(true, b) {
      if x != [] && y != [] { JoinUnique(Sort(x), Sort(y)); }
      assert multiset(Sort(x)) == multiset(x) && multiset(Sort(y)) == multiset(y);
    }
    if multiset(x) == multiset(y) { JoinedIgnoresOrder(x, y); }
  }
}
